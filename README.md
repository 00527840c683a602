# wbtech-L0 order service core, modelled in Dafny

This project models the core of the wbtech-L0 order service. The service
ingests order aggregates and stores each one in PostgreSQL as four kinds of
rows: an order, its delivery, its payment and its items. It serves reads
from an in-process cache and warms that cache at startup with the most
recent orders. Writes go through a retrier with configurable backoff.

The model covers these parts, one Dafny module each:

- `Errors`: the repository's error sentinels, `wrapDBError` and the
  `errors.Is` chain (`repository/errors.go`).
- `Backoff`, `Retry` and `RetryDo`: the backoff schedules, the configurable
  retrier, and the stand-alone retry loop (`retry/`).
- `ServiceRetry`: the retrier the application builds, with its error
  classifier (`app/utils.go`).
- `Cache`: the generic cache (`cache/cache.go`), as written and as a
  corrected first-in first-out cache.
- `Store`: the tables, keyed by serial ids, with the few SQL shapes the
  repositories use. The shapes are `WHERE id = $1`, `WHERE k = ANY($1)`,
  `UPDATE`/`DELETE` with the `RowsAffected()` check, and a result stream
  read row by row.
- `Store.Database`: a class whose `tables` and `serials` the repositories
  update. Transactions are snapshots of the tables, and the id sequences
  are never rolled back, as in PostgreSQL.
- `OrdersRepository`, `DeliveryRepository`, `PaymentRepository` and
  `ItemsRepository`: the four repositories.
- `ExtendedOrderRepository`: the transactional write of an aggregate, and
  its join reads.
- `Service`: the service. It writes and then caches, reads from the cache
  or else from the store, and warms the cache.

How failures are modelled:

- Every statement that can fail takes its failure as a parameter of type
  `Option<Error>`.
- A result set that can break off takes a `Stream`, which is either
  `Complete` or `BrokenAfter(n, e)`.
- A batch of inserts takes a function from the statement number to its
  failure.
- The retry loops take the attempt function and the cancellation of the
  context as oracles.
- Jitter draws from `rand.Float64()` are parameters in [0, 1).

Where the code and its own tests or comments disagree, the model follows
the code and also proves the evidently intended behaviour:

- The cache's eviction test (`cache_test.go:18-33`) expects the oldest key
  to go. The code appends to the eviction list on `Get` and never on `Add`,
  so that test's third `Add` indexes an empty list.
- The retrier's tests (`retry_test.go:28-60`) expect nil from a successful
  attempt and "all attempts failed: always fail" once every attempt fails.
  As written (`retry.go:46-48`), Do returns nil as soon as an attempt
  fails.
- The join query (`queries.go:12`) selects 33 columns, and the scan of
  `extended_order_repository.go:118-131` gives 31 destinations.

Each of these is listed under "## Findings". The class `Service.Service`
runs over the cache as written. `Service.ServiceAsIntended` runs over the
corrected cache, with the load's queries corrected too.

## Model

| member | source | states |
|---|---|---|
| `Errors.WrapDBError` | app/internal/repository/errors.go:21-24 | nil stays nil, and an error never becomes nil |
| `Errors.WrapDBErrorMaps` | app/internal/repository/errors.go:21-43 | a chain holding `pgx.ErrNoRows` becomes ErrNotFound; PostgreSQL code 23505 becomes ErrDuplicate and 23503 ErrForeignKeyViolation; any other code is wrapped as "postgres error [code]"; any other error passes through unchanged |
| `Errors.NotFoundIsNoRows` | app/internal/repository/errors.go:14-28 | ErrNotFound unwraps to `pgx.ErrNoRows`, so a second wrapDBError leaves it as it is |
| `Errors.WrappedKeepsChain` | app/internal/repository/errors.go:38 | a `%w` wrapper keeps every error of the wrapped chain visible to `errors.Is` |
| `Errors.WrapDBErrorIdempotent` | app/internal/repository/errors.go:21-43 | wrapDBError applied twice equals wrapDBError applied once, except on the generic PostgreSQL wrapper |
| `Errors.DoubleWrapOfOtherPgError` | app/internal/repository/errors.go:37-39 | a PostgreSQL error with another code is wrapped once per repository layer it crosses |
| `Backoff.Trunc` | app/internal/retry/backoff.go:59 | the conversion of a float to a duration truncates toward zero, so it lies within 1ns of the value on the side of zero |
| `Backoff.JitterOffIsIdentity` | app/internal/retry/backoff.go:54-57 | a jitter of 0 or less, or of 1 or more, leaves the delay unchanged |
| `Backoff.JitterWithinBand` | app/internal/retry/backoff.go:54-60 | with active jitter j, a delay d lands within d·(1 ± j), less at most 1ns of truncation |
| `Backoff.FixedIgnoresAttempt` | app/internal/retry/backoff.go:20-22 | the fixed schedule gives the same delay for every attempt, and without jitter that delay is the interval |
| `Backoff.LinearSchedule` | app/internal/retry/backoff.go:31-37 | the linear delay is base + attempt·step, jittered, up to a positive cap; past the cap it is exactly the cap, without jitter |
| `Backoff.LinearBoundedByMax` | app/internal/retry/backoff.go:31-37 | without jitter, a positive cap bounds every linear delay |
| `Backoff.LinearTestSchedule` | app/internal/retry/backoff_test.go:34-40 | 1s plus 500ms per attempt, capped at 3s, gives 1s, 1.5s, 2s, and 3s at attempt 10 |
| `Backoff.ExponentialCapped` | app/internal/retry/backoff.go:46-52 | once base·factor^attempt passes a positive cap, the delay is the cap, whatever the jitter |
| `Backoff.ExponentialServiceSchedule` | app/internal/app/utils.go:21-28 | base 1s, factor 2 and cap 10s give 1s, 2s, 4s, 8s, then 10s |
| `Retry.LastMaxAttemptsWins` | app/internal/retry/retry.go:24-36 | options apply in order, so the last WithMaxAttempts decides the attempt count |
| `Retry.UnnamedFieldsKept` | app/internal/retry/retry.go:24-36 | a field that no option sets keeps its default |
| `Retry.Retrier.New` | app/internal/retry/retry.go:24-36 | the retrier holds the defaults (3 attempts, linear 1s/1s/10s with jitter 0.1, retry on any non-nil error) with every option applied in order |
| `Retry.Retrier.Do` | app/internal/retry/retry.go:38-62 | the loop as written: its result, the number of calls and the waits are those of the as-written run |
| `Retry.Retrier.DoAsIntended` | app/internal/retry/retry.go:38-62 | the loop with a successful attempt ending it with nil; its outcome is that of the corrected run |
| `Retry.CallsBounded` | app/internal/retry/retry.go:41 | the attempt function is called at most maxAttempts times |
| `Retry.WaitsFollowSchedule` | app/internal/retry/retry.go:54-58 | the i-th wait is the backoff's delay for attempt i, and there is at most one wait per call |
| `Retry.CancelledBeforeStart` | app/internal/retry/retry.go:42-44 | a context that is already done ends the loop with its error before any call |
| `Retry.NoAttemptsNoCall` | app/internal/retry/retry.go:41-61 | with maxAttempts of 0 or less, f is never called and the result is "all attempts failed: nil" |
| `Retry.FailureReportedAsSuccess` | app/internal/retry/retry.go:46-48 | as written, a first attempt that fails makes Do return nil after one call |
| `Retry.AsWrittenNilMeansLastCallFailed` | app/internal/retry/retry.go:46-48 | as written, Do returns nil exactly when its last call failed |
| `Retry.AsWrittenWrapsOnlyNil` | app/internal/retry/retry.go:38-62 | as written, every wrapped error Do returns ("unretryable error", "all attempts failed") wraps nil, unless it is the context's own error |
| `Retry.AsWrittenDefaultSuccessIsError` | app/internal/retry/retry.go:50-52 | as written, with the default classifier a first successful attempt becomes "unretryable error: nil" |
| `Retry.NilIffLastCallSucceeded` | app/internal/retry/retry.go:38-62 | as intended, Do returns nil exactly when its last call succeeded |
| `Retry.SucceedsAfterRetries` | app/internal/retry/retry.go:38-62 | as intended, retryable failures followed by a success at attempt k give nil after exactly k+1 calls |
| `Retry.UnretryableStopsAtOnce` | app/internal/retry/retry.go:50-52 | an error the classifier rejects ends Do after one call, wrapped as "unretryable error" |
| `Retry.ExhaustedWrapsLastError` | app/internal/retry/retry.go:61 | as intended, when every attempt fails retryably, Do makes maxAttempts calls and wraps the last error |
| `RetryDo.Do` | app/internal/retry/do.go:11-31 | the stand-alone loop as written, where maxAttempts of 0 means unbounded: its outcome is that of the as-written run |
| `RetryDo.DoAsIntended` | app/internal/retry/do.go:11-31 | the stand-alone loop with line 19 corrected: its outcome is that of the corrected run |
| `RetryDo.DoStep` | app/internal/retry/do.go:14-27 | an attempt that fails to end the loop, with the context not done, adds its wait of `attempt` ns, and the loop goes on from the next attempt with this attempt's error |
| `RetryDo.AsWrittenNeverFails` | app/internal/retry/do.go:19-21 | as written, the loop never reports a failure of f: it returns nil or the context's error, and nil on a context that is never done |
| `RetryDo.UnboundedRunsToFirstSuccess` | app/internal/retry/do.go:14-26 | as intended, the unbounded loop calls f up to its first success k, waiting 0..k-1 ns in turn, and returns nil |
| `RetryDo.BoundedReturnsLastError` | app/internal/retry/do.go:14-30 | as intended, a bounded loop whose attempts all fail makes maxAttempts calls and returns the last error unwrapped |
| `ServiceRetry.IsRetryableFunc` | app/internal/app/utils.go:33-49 | an error is retryable exactly when it is not, and does not wrap, a duplicate, a missing row, an invalid id or a foreign-key violation |
| `ServiceRetry.ServiceOptions` | app/internal/app/utils.go:12-31 | one to three options, the first of which sets the configured attempt count |
| `ServiceRetry.ServiceSettings` | app/internal/app/utils.go:12-31 | the built retrier has the configured attempt count, the exponential schedule exactly when it is configured (otherwise the default linear one), and the given classifier (otherwise the default one) |
| `ServiceRetry.NewServiceRetrier` | app/internal/app/utils.go:12-31 | a new retrier configured from the service options |
| `ServiceRetry.StoreErrorsTerminal` | app/internal/app/utils.go:33-49 | the errors that wrapDBError makes of a missing row, a unique violation and a foreign-key violation are never retried, and neither is ErrNotFound under a further `%w` |
| `ServiceRetry.OtherErrorsRetried` | app/internal/app/utils.go:33-49 | nil, transient errors, ErrNilValue and ErrNoRowsAffected are retried |
| `ServiceRetry.AsWrittenRepeatsSuccess` | app/internal/app/utils.go:48 | as written, with the service classifier an attempt that always succeeds is called maxAttempts times, and Do reports "all attempts failed: nil" |
| `Cache.Added` | app/internal/cache/cache.go:21-35 | Add as written: the key is present afterwards, with its first value if it was cached and the new value otherwise; no other key gains or changes a value; the list loses at most its head |
| `Cache.FirstWriteWins` | app/internal/cache/cache.go:25-27 | a second Add of the same key leaves the first value |
| `Cache.AsWrittenGrowsPastCapacity` | app/internal/cache/cache.go:29-34 | as written, evicting a key that was looked up but never cached lets the map exceed its capacity |
| `Cache.AsWrittenSecondAddPanics` | app/internal/cache/cache.go:29-31 | as written, with capacity 1 and no Get, the second distinct Add indexes an empty list |
| `Cache.AsWrittenEvictionScenarioPanics` | app/internal/cache/cache_test.go:18-33 | the eviction test's scenario (capacity 2, three distinct keys): as written, the first two Adds succeed and the third indexes an empty list |
| `Cache.EvictionScenarioAsIntended` | app/internal/cache/cache_test.go:18-33 | in the same scenario the corrected cache stays bounded, evicts the first key, and keeps the other two in order |
| `Cache.Cache.New` | app/internal/cache/cache.go:14-19 | the cache starts empty with the given capacity |
| `Cache.Cache.Add` | app/internal/cache/cache.go:21-35 | the cache after Add is `Added` of the cache before |
| `Cache.Cache.Get` | app/internal/cache/cache.go:37-43 | a lookup returns the cached value or nothing, and appends the key to the eviction list whether it hit or missed |
| `Cache.Cache.Clear` | app/internal/cache/cache.go:45-50 | the map and the list are both emptied |
| `Cache.EvictKeepsBounded` | app/internal/cache/cache.go:29-34 | as intended, a new key on a full cache replaces exactly the oldest key and keeps the cache bounded |
| `Cache.AppendKeepsBounded` | app/internal/cache/cache.go:34 | as intended, below capacity a new key joins the cache and the end of the list |
| `Cache.InsertedBounded` | app/internal/cache/cache.go:21-35 | as intended, Add keeps the cache bounded, stores a new key's value, keeps a cached key's first value, and evicts at most the oldest key |
| `Cache.BoundedCanAdd` | app/internal/cache/cache.go:29-31 | a bounded cache always has a head to evict when it is full, so the corrected Add never indexes an empty list |
| `Cache.BoundedCache.New` | app/internal/cache/cache.go:14-19 | a corrected cache starts empty and bounded |
| `Cache.BoundedCache.Add` | app/internal/cache/cache.go:21-35 | the corrected Add keeps the cache bounded, and its result is the first-in first-out insertion |
| `Cache.BoundedCache.Get` | app/internal/cache/cache.go:37-43 | the corrected Get returns the cached value exactly when the key is cached, and changes nothing |
| `Cache.BoundedCache.Clear` | app/internal/cache/cache.go:45-50 | the corrected cache is emptied and stays bounded |
| `Store.Lookup` | app/internal/repository/orders_repository.go:93-94 | `WHERE id = $1` finds a row with that key exactly when the table holds one |
| `Store.Filter` | app/internal/repository/orders_repository.go:255 | a `WHERE` clause keeps exactly the rows it matches, and no more rows than the table has |
| `Store.Replace` | app/internal/repository/orders_repository.go:190-204 | `UPDATE … WHERE id = $1` keeps the table's length and every row's key |
| `Store.KeyedAppend` | app/internal/repository/delivery_repository.go:28-59 | inserting under the next serial id keeps the table keyed, and the new row is found under that id |
| `Store.KeyedGrow` | app/internal/repository/extended_order_repository.go:48-52 | a sequence that has moved on, as after a rollback, keeps every table keyed |
| `Store.KeyedFilter` | app/internal/repository/orders_repository.go:250-269 | deleting rows keeps the table keyed |
| `Store.KeyedReplace` | app/internal/repository/orders_repository.go:185-248 | updating a row in place keeps the table keyed |
| `Store.LookupReplaced` | app/internal/repository/orders_repository.go:185-248 | after an update of a stored key, `WHERE id = $1` finds the new row |
| `Store.LookupFirst` | app/internal/repository/orders_repository.go:93-94 | where no earlier row has its key, a row is the one found under that key |
| `Store.RemoveKeepsOthers` | app/internal/repository/orders_repository.go:250-269 | deleting one id leaves what every other id looks up unchanged |
| `Store.RemovedIsGone` | app/internal/repository/orders_repository.go:250-269 | after `DELETE … WHERE id = $1`, no row has that id |
| `Store.RemoveShrinks` | app/internal/repository/orders_repository.go:264-268 | deleting a stored key removes at least one row, so RowsAffected is positive |
| `Store.LookupAppend` | app/internal/repository/delivery_repository.go:28-59 | after one more row, a lookup finds the earlier row if there was one, else the new row when it has the key |
| `Store.AnyOf` | app/internal/repository/delivery_repository.go:107-108 | `WHERE k = ANY($1)` keeps exactly the rows whose key is among the ids |
| `Store.AnyOfAppend` | app/internal/repository/items_repository.go:239-303 | one more row in the table adds that row to the end of an ANY result exactly when its key was queried |
| `Store.AnyOfConcat` | app/internal/repository/items_repository.go:239-303 | the ANY result over two parts of a table is the two results, one after the other |
| `Store.AnyOfExtremes` | app/internal/repository/delivery_repository.go:107-108 | an ANY query that no row matches is empty, and one that every row matches is the whole table |
| `Store.KeyedAnyOf` | app/internal/repository/delivery_repository.go:107-108 | the result of an ANY query on a keyed table is keyed |
| `Store.AnyOfNarrow` | app/internal/repository/extended_order_repository.go:215-216 | narrowing an ANY result to one of its ids is the query for that id |
| `Store.LookupAnyOf` | app/internal/service/service.go:79-82 | looking up one key in an ANY result finds the table's row exactly when the key was queried |
| `Store.IndexIsLookup` | app/internal/service/service.go:79-82 | indexing a keyed result set by id holds exactly the rows a lookup finds |
| `Store.ExecUpdate` | app/internal/repository/orders_repository.go:243-247 | an UPDATE succeeds exactly when there is no failure and the row exists, and then replaces it; otherwise it changes nothing and reports ErrNoRowsAffected, because the row count is checked before the error |
| `Store.ExecDelete` | app/internal/repository/orders_repository.go:264-268 | a DELETE succeeds exactly when there is no failure and the row exists; it then leaves exactly the rows with other ids, in order, so every other id finds what it found before; otherwise it changes nothing and reports ErrNoRowsAffected |
| `Store.UpdateKeepsKeyed` | app/internal/repository/orders_repository.go:185-248 | an update keeps the table's serial keys distinct and increasing |
| `Store.DeleteKeepsKeyed` | app/internal/repository/orders_repository.go:250-269 | a delete keeps the table's serial keys distinct and increasing |
| `Store.Fetch` | app/internal/repository/orders_repository.go:155-180 | reading a result set yields its rows in order up to where the stream breaks, and `rows.Err()` reports exactly the break |
| `Store.Delivered` | app/internal/repository/orders_repository.go:155-180 | a stream yields at most the rows of the result, and all of them when it completes |
| `Store.RollbackConsistent` | app/internal/repository/extended_order_repository.go:48-52 | rolling back to a snapshot keeps the store consistent, although the sequences have moved on |
| `Store.Database.Begin` | app/internal/repository/extended_order_repository.go:44-47 | a failed begin reports its error; otherwise the transaction remembers the current tables |
| `Store.Database.Empty` | app/internal/repository/extended_order_repository.go:39-87 | a new database has empty tables and every sequence at 1 |
| `Store.Database.Rollback` | app/internal/repository/extended_order_repository.go:48-52 | the tables return to the snapshot and the sequences do not |
| `Store.Database.Commit` | app/internal/repository/extended_order_repository.go:81-84 | a commit reports its failure, and a failed commit aborts the transaction |
| `OrdersRepository.FindByUid` | app/internal/repository/queries.go:32 | finds an order with the uid exactly when the table holds one |
| `OrdersRepository.Upsert` | app/internal/repository/queries.go:24-35 | a new uid gets the next serial id and a new row; a known uid returns the id of a stored row and leaves the table unchanged |
| `OrdersRepository.UpsertStores` | app/internal/repository/queries.go:24-35 | after the upsert, the uid is stored under the returned id, the table stays keyed, and uids stay unique |
| `OrdersRepository.AppendKeepsUidsUnique` | app/internal/repository/queries.go:24-35 | inserting a row whose order_uid is not yet stored keeps the unique index on order_uid satisfied |
| `OrdersRepository.UpsertIdempotent` | app/internal/repository/queries.go:32-34 | replaying an insert with the same uid returns the same id and changes no row |
| `OrdersRepository.FindAppended` | app/internal/repository/queries.go:24-35 | an order with a new uid, once appended, is the one found by that uid |
| `OrdersRepository.Create` | app/internal/repository/orders_repository.go:27-70 | a nil order is ErrNilValue; a failure is wrapped and changes nothing; otherwise the upsert's id is scanned into the order and the sequence advances, also on a uid conflict |
| `OrdersRepository.Get` | app/internal/repository/orders_repository.go:72-123 | an id of 0 or less is ErrInvalidID; a found order has that id; without a failure, a miss is ErrNotFound exactly when no row has the id |
| `OrdersRepository.InsertNewestPermutes` | app/internal/repository/orders_repository.go:138 | inserting into the date order keeps every order once |
| `OrdersRepository.ConsDescending` | app/internal/repository/orders_repository.go:138 | an order no older than any of a descending sequence, put in front of it, keeps it descending |
| `OrdersRepository.HeadBoundsInsert` | app/internal/repository/orders_repository.go:138 | when an order is inserted past the head of a descending sequence, the head stays at least as new as everything after it |
| `OrdersRepository.InsertNewestSorted` | app/internal/repository/orders_repository.go:138 | inserting into a newest-first sequence keeps it newest first |
| `OrdersRepository.NewestFirstSorts` | app/internal/repository/orders_repository.go:138 | `ORDER BY date_created DESC` gives a newest-first permutation of the table |
| `OrdersRepository.PrefixIsNewest` | app/internal/repository/orders_repository.go:138-139 | a prefix of a newest-first sequence is newest first, and nothing left out is newer than anything kept |
| `OrdersRepository.LastNIsNewest` | app/internal/repository/orders_repository.go:125-183 | the last n orders are min(n, size) of the table's orders, newest first, and no order left out is newer than one returned |
| `OrdersRepository.InsertNewestDistinct` | app/internal/repository/orders_repository.go:138 | inserting an order with a new id into sorted orders with distinct ids keeps the ids distinct |
| `OrdersRepository.ConsDistinct` | app/internal/repository/orders_repository.go:138 | an order put before orders with distinct ids, none equal to its own, keeps the ids distinct |
| `OrdersRepository.HeadIdApart` | app/internal/repository/orders_repository.go:138 | when an order is placed after the newest one, the newest one's id differs from every id it is placed among |
| `OrdersRepository.NewestFirstDistinct` | app/internal/repository/orders_repository.go:138 | sorting by date keeps the ids distinct |
| `OrdersRepository.LastNDistinct` | app/internal/repository/orders_repository.go:125-183 | the last n orders of a keyed table have distinct ids |
| `OrdersRepository.GetLastN` | app/internal/repository/orders_repository.go:125-183 | n of 0 or less is ErrInvalidID; a failed query or a broken stream is wrapped; otherwise the result is the last n orders |
| `OrdersRepository.UpdateOrderEffect` | app/internal/repository/orders_repository.go:185-248 | an update either stores every column except date_created, or changes nothing and reports ErrNoRowsAffected (a missing row, a taken uid, any failure); the table stays keyed with unique uids |
| `OrdersRepository.Update` | app/internal/repository/orders_repository.go:185-248 | a nil order is ErrNilValue; otherwise the table after the call is the update's result |
| `OrdersRepository.RemoveKeepsUidsUnique` | app/internal/repository/orders_repository.go:250-269 | deleting rows keeps uids unique |
| `OrdersRepository.Delete` | app/internal/repository/orders_repository.go:250-269 | an id of 0 or less is ErrInvalidID; otherwise the table after the call is the delete's result |
| `OrdersRepository.DeleteKeepsOthers` | app/internal/repository/orders_repository.go:250-269 | a successful delete leaves every other id reading as before |
| `OrdersRepository.ReadYourWrites` | app/internal/repository/orders_repository.go:27-123 | Get finds a created order under the returned id, and no longer finds a deleted one while every other id reads as before |
| `DeliveryRepository.Create` | app/internal/repository/delivery_repository.go:28-59 | a nil delivery is ErrNilValue; a failure is wrapped and changes nothing; otherwise the delivery is appended under the next serial id, which it receives |
| `DeliveryRepository.Get` | app/internal/repository/delivery_repository.go:61-97 | an id of 0 or less is ErrInvalidID; without a failure, a miss is ErrNotFound exactly when no row has the id |
| `DeliveryRepository.GetByOrderIDs` | app/internal/repository/delivery_repository.go:99-140 | no ids gives an empty result; a failure or a broken stream is wrapped; otherwise the result is the deliveries whose own id is among the ids |
| `DeliveryRepository.Update` | app/internal/repository/delivery_repository.go:142-184 | a nil delivery or an id of 0 or less is ErrNilValue; otherwise the table after the call is the update's result |
| `DeliveryRepository.Delete` | app/internal/repository/delivery_repository.go:186-206 | an id of 0 or less is ErrInvalidID; otherwise the table after the call is the delete's result |
| `DeliveryRepository.DeleteKeepsOthers` | app/internal/repository/delivery_repository.go:186-206 | a successful delete leaves every other id reading as before |
| `DeliveryRepository.ReadYourWrites` | app/internal/repository/delivery_repository.go:28-206 | Get finds a created delivery under its new id and an updated one as written, and no longer finds a deleted one while every other id reads as before |
| `PaymentRepository.Create` | app/internal/repository/payment_repository.go:28-65 | a nil payment is ErrNilValue; a failure is wrapped and changes nothing; otherwise the payment is appended under the next serial id |
| `PaymentRepository.Get` | app/internal/repository/payment_repository.go:67-112 | an id of 0 or less is ErrInvalidID; without a failure, a miss is ErrNotFound exactly when no row has the id |
| `PaymentRepository.GetByOrderIDs` | app/internal/repository/payment_repository.go:114-157 | no ids gives an empty result; a failure or a broken stream is wrapped; otherwise the result is the payments whose own id is among the ids |
| `PaymentRepository.Update` | app/internal/repository/payment_repository.go:159-216 | a nil payment is ErrNilValue; otherwise the table after the call is the update's result |
| `PaymentRepository.Delete` | app/internal/repository/payment_repository.go:218-238 | an id of 0 or less is ErrInvalidID; otherwise the table after the call is the delete's result |
| `PaymentRepository.DeleteKeepsOthers` | app/internal/repository/payment_repository.go:218-238 | a successful delete leaves every other id reading as before |
| `PaymentRepository.ReadYourWrites` | app/internal/repository/payment_repository.go:28-238 | Get finds a created payment under its new id and an updated one as written, and no longer finds a deleted one while every other id reads as before |
| `ItemsRepository.Numbered` | app/internal/repository/items_repository.go:111-124 | the i-th item of a batch gets id next + i, and nothing else of it changes |
| `ItemsRepository.NumberedKeyed` | app/internal/repository/items_repository.go:88-124 | inserting a numbered batch keeps the items table keyed |
| `ItemsRepository.NumberedFound` | app/internal/repository/items_repository.go:88-124 | each item of an inserted batch is found under its new id |
| `ItemsRepository.CreateItem` | app/internal/repository/items_repository.go:33-76 | as written: a nil item is ErrNilValue; a failure is wrapped; otherwise the row is inserted, but the call reports the scan error and the item keeps its old id |
| `ItemsRepository.CreateItemAsIntended` | app/internal/repository/items_repository.go:33-76 | with the id scanned through a pointer, the item gets its new id and no error |
| `ItemsRepository.AsWrittenCreateItemFails` | app/internal/repository/items_repository.go:55 | the scan error passes wrapDBError unchanged, although the inserted row is there to be read |
| `ItemsRepository.Values` | app/internal/repository/items_repository.go:82-86 | the items of a slice without nil elements, in order |
| `ItemsRepository.FirstFailure` | app/internal/repository/items_repository.go:111-124 | the first failing statement of a batch: every statement before it succeeded |
| `ItemsRepository.FirstFailureAt` | app/internal/repository/items_repository.go:111-124 | a position that is the end of the batch or a failure, with no failure before it, is the first failure |
| `ItemsRepository.Renumbered` | app/internal/repository/items_repository.go:111-124 | after a batch, the first k items carry their new ids and the rest are unchanged |
| `ItemsRepository.BatchStep` | app/internal/repository/items_repository.go:120-124 | one more successful statement numbers one more item |
| `ItemsRepository.CreateItems` | app/internal/repository/items_repository.go:78-128 | an empty slice does nothing; a nil element is ErrNilValue before anything is sent; otherwise the statements up to the first failure insert their items with new ids, and the error is that failure's |
| `ItemsRepository.ReadBack` | app/internal/repository/items_repository.go:120-124 | the ids are read back in order up to the first failing statement: exactly the statements before it add rows with consecutive new ids, and exactly those items carry them |
| `ItemsRepository.Get` | app/internal/repository/items_repository.go:130-185 | an id of 0 or less is ErrInvalidID; without a failure, a miss is ErrNotFound exactly when no row has the id |
| `ItemsRepository.GetItems` | app/internal/repository/items_repository.go:187-237 | an order id of 0 or less is ErrInvalidID; a failure is wrapped; otherwise the result is the order's items read before the stream breaks, and ErrNotFound when there are none |
| `ItemsRepository.GetByOrderIDs` | app/internal/repository/items_repository.go:239-303 | no ids gives an empty result; a failure or a broken stream is wrapped; otherwise the result is the items of any of the orders, in table order |
| `ItemsRepository.Update` | app/internal/repository/items_repository.go:305-376 | a nil item is ErrNilValue and an id of 0 or less ErrInvalidID; otherwise the table after the call is the update's result |
| `ItemsRepository.Delete` | app/internal/repository/items_repository.go:378-401 | an id of 0 or less is ErrInvalidID; otherwise the table after the call is the delete's result |
| `ItemsRepository.DeleteKeepsOthers` | app/internal/repository/items_repository.go:378-401 | a successful delete leaves every other id reading as before |
| `ItemsRepository.ReadYourWrites` | app/internal/repository/items_repository.go:78-401 | Get finds each item of a batch under its new id and an updated item as written, and no longer finds a deleted one while every other id reads as before |
| `ExtendedOrderRepository.Owned` | app/internal/repository/extended_order_repository.go:72-74 | every item points at the order and nothing else of it changes |
| `ExtendedOrderRepository.StepError` | app/internal/repository/extended_order_repository.go:54-79 | the write has no step error exactly when the delivery, payment and order statements and every item statement succeed |
| `ExtendedOrderRepository.WriteParts` | app/internal/repository/extended_order_repository.go:54-62 | the delivery, then the payment, each numbered by its own sequence, stopping at the first failure; the orders table is untouched |
| `ExtendedOrderRepository.WriteHead` | app/internal/repository/extended_order_repository.go:54-70 | the delivery, the payment, then the order pointing at both, each stopping at its failure |
| `ExtendedOrderRepository.Own` | app/internal/repository/extended_order_repository.go:72-74 | the items after the loop all point at the order |
| `ExtendedOrderRepository.WriteItems` | app/internal/repository/extended_order_repository.go:76-79 | the item statements stop at the first failing one and report its wrapped error; on success the items, owned by the order, are appended under new ids and nothing else changes |
| `ExtendedOrderRepository.WriteSteps` | app/internal/repository/extended_order_repository.go:54-79 | all statements of the write: on success the store is the full insertion; on failure the error is the first failing step's |
| `ExtendedOrderRepository.CreateExtendedOrder` | app/internal/repository/extended_order_repository.go:39-87 | a nil aggregate is ErrNilValue; a failure at begin, at any step or at commit is wrapped and leaves the tables as they were; success stores the delivery, payment, order and items with new ids |
| `ExtendedOrderRepository.HeadIsJoined` | app/internal/repository/extended_order_repository.go:54-70 | after the head of the write, the new order joins exactly the delivery and payment just written |
| `ExtendedOrderRepository.ItemsAreOwned` | app/internal/repository/extended_order_repository.go:72-79 | the items of the new order are exactly the items just written |
| `ExtendedOrderRepository.CreatedIsFound` | app/internal/repository/extended_order_repository.go:39-87 | a new aggregate, once written, is found by the join under its new id, with exactly its items |
| `ExtendedOrderRepository.ReplayAddsRows` | app/internal/repository/extended_order_repository.go:54-79 | replaying a known uid leaves the order as stored but adds a delivery and a payment that nothing points at, and appends the items again to the stored order |
| `ExtendedOrderRepository.Join` | app/internal/repository/queries.go:19-21 | the inner join yields a row exactly when the order's delivery and payment exist, and it holds those |
| `ExtendedOrderRepository.JoinAll` | app/internal/repository/queries.go:19-21 | the inner join over several orders yields no more rows than there are orders, each the row of one of those orders |
| `ExtendedOrderRepository.JoinAllJoined` | app/internal/repository/queries.go:19-21 | each row of the join over several orders is the join of its own order |
| `ExtendedOrderRepository.DescendingHead` | app/internal/repository/extended_order_repository.go:178-180 | in orders sorted newest first, the first is at least as new as every later one |
| `ExtendedOrderRepository.ConsNewestFirst` | app/internal/repository/extended_order_repository.go:178-180 | a row no older than any of a newest-first sequence, put in front of it, keeps it newest first |
| `ExtendedOrderRepository.JoinAllDescending` | app/internal/repository/extended_order_repository.go:178-180 | joining orders sorted newest first gives rows sorted newest first |
| `ExtendedOrderRepository.LastJoinedIsNewest` | app/internal/repository/extended_order_repository.go:178-180 | the most recent joined rows number at most the limit, are newest first, and are each the join of a stored order |
| `ExtendedOrderRepository.GetExtendedOrder` | app/internal/repository/extended_order_repository.go:89-167 | as written, no call returns an order: a negative id is ErrInvalidID, a missing row is ErrNotFound, and a found row fails to scan its 33 columns into 31 destinations |
| `ExtendedOrderRepository.GetExtendedOrderAsIntended` | app/internal/repository/extended_order_repository.go:89-167 | with every column scanned, the result is the joined row with the order's items read before the stream breaks |
| `ExtendedOrderRepository.WriteThenReadAsIntended` | app/internal/repository/extended_order_repository.go:39-167 | the corrected read of a newly written aggregate returns exactly what was written |
| `ExtendedOrderRepository.GetLastExtendedOrders` | app/internal/repository/extended_order_repository.go:169-255 | as written, no call returns an order: a negative limit is ErrNilValue, a zero limit is empty, and the first joined row fails to scan |
| `ExtendedOrderRepository.GroupIsQuery` | app/internal/repository/extended_order_repository.go:225-246 | grouping a result by order id gives each order exactly its items in result order, and an order without items has no group |
| `ExtendedOrderRepository.Attached` | app/internal/repository/extended_order_repository.go:248-252 | each order keeps its position and takes the fetched items that point at it |
| `ExtendedOrderRepository.OrderIds` | app/internal/repository/extended_order_repository.go:210-213 | one id per order read |
| `ExtendedOrderRepository.CollectIds` | app/internal/repository/extended_order_repository.go:210-213 | the loop collects the ids of the orders read, in order |
| `ExtendedOrderRepository.GroupItems` | app/internal/repository/extended_order_repository.go:225-246 | the loop builds the grouping of the fetched items |
| `ExtendedOrderRepository.AttachItems` | app/internal/repository/extended_order_repository.go:248-252 | the loop gives each order its group, and no items to an order without one |
| `ExtendedOrderRepository.GetLastExtendedOrdersAsIntended` | app/internal/repository/extended_order_repository.go:169-255 | with every column scanned: the newest joined rows read before the stream breaks, each with the items of its order fetched in one query |
| `ExtendedOrderRepository.BatchedItemsArePerOrder` | app/internal/repository/extended_order_repository.go:215-252 | the one batched item query gives each order the same items as a query for that order alone |
| `Service.AssembleIsJoin` | app/internal/service/service.go:179-234 | without failures, a store read succeeds exactly for a positive id whose order joins its delivery and payment and has an item, and then it is that join with the order's items; an order without items is ErrNotFound |
| `Service.CreatedIsRead` | app/internal/service/service.go:123-234 | an aggregate written with a new uid reads back from the store exactly as written when it has items, and is ErrNotFound when it has none |
| `Service.QueryError` | app/internal/service/service.go:75-100 | a query reports no error exactly when it does not fail and its stream completes |
| `Service.Ids` | app/internal/service/service.go:70-73 | one order id per recent order |
| `Service.DeliveryIds` | app/internal/service/service.go:75-82 | one delivery id per recent order |
| `Service.PaymentIds` | app/internal/service/service.go:84-91 | one payment id per recent order |
| `Service.Entries` | app/internal/service/service.go:102-110 | one cache entry per order: its id, with the order joined to its delivery, payment and items |
| `Service.AddedAll` | app/internal/service/service.go:102-110 | adding entries one by one, in order, to the cache as written either panics or never lengthens the eviction list |
| `Service.AddedAllStep` | app/internal/service/service.go:102-110 | one more entry is one more Add as written, which must not panic |
| `Service.AddedAllPrefix` | app/internal/service/service.go:102-110 | when a run of Adds as written does not panic, no prefix of it does |
| `Service.AddAllStep` | app/internal/service/service.go:102-110 | with the corrected cache, one more entry is one more Add after the entries before it |
| `Service.AsWrittenWarmUpLeavesListEmpty` | app/internal/service/service.go:102-110 | as written, warming an empty cache with at most its capacity of entries, all with distinct keys, never panics, caches every entry and leaves the eviction list empty |
| `Service.AddAll` | app/internal/service/service.go:102-110 | with the corrected cache, adding entries one by one, in order, keeps the cache bounded |
| `Service.MapOfKeys` | app/internal/service/service.go:102-110 | every cached key comes from an added entry |
| `Service.MapOfDistinct` | app/internal/service/service.go:102-110 | entries with distinct keys give a map with one key per entry, holding each entry's value |
| `Service.WarmUpCachesAll` | app/internal/service/service.go:102-110 | with the corrected cache, warming an empty cache with at most its capacity of entries, all with distinct keys, caches every one of them |
| `Service.PartsFound` | app/internal/service/service.go:75-100 | an order's delivery and payment are in the maps built from the queries exactly when they exist and their ids were queried; its group is its items |
| `Service.LoadsAsWhenQueried` | app/internal/service/service.go:75-110 | when every order's delivery and payment ids were queried, each order is cached as its joined entry |
| `Service.EntryAsLoaded` | app/internal/service/service.go:102-109 | an order whose delivery, payment and items the maps hold as stored is cached as its joined entry |
| `Service.LoadedAsQueried` | app/internal/service/service.go:75-110 | the maps built from the three query results make every order's delivery and payment available, and the orders are cached as their joined entries |
| `Service.AsWrittenLoadedEntries` | app/internal/service/service.go:70-110 | as written, the load caches each recent order as its joined entry only when the orders' delivery and payment ids are among the order ids |
| `Service.AsIntendedLoadedEntries` | app/internal/service/service.go:70-110 | with the delivery and payment queries given the delivery and payment ids, every joinable recent order is cached as its joined entry |
| `Service.WarmUpCachesRecent` | app/internal/service/service.go:46-121 | with the corrected cache, warming an empty cache at startup, with a limit no larger than the cache, caches every recent order under its id, joined with its parts |
| `Service.WarmUpCachesRecentAsWritten` | app/internal/service/service.go:46-121 | as written, the same warm-up never panics, caches every recent order under its id with its parts and nothing else, and leaves the eviction list empty |
| `Service.RecentIdsBelowSerial` | app/internal/service/service.go:56-60 | every recent order's id is below the next order serial |
| `Service.NewUidGetsNextId` | app/internal/service/service.go:123-177 | an aggregate with a new uid is stored under the next order serial |
| `Service.AsWrittenCreateAfterFullWarmUpPanics` | app/internal/app/app.go:56-60 | as written, after the startup load fills the cache from a store holding at least as many orders as the cache size, the next aggregate created with a new uid cannot be added to the cache (the Add of service.go:172 indexes an empty list) |
| `Service.SkippedDeliveryStore` | app/internal/service/service.go:75-82 | a consistent store where one rolled-back write used up delivery id 1, whose only order points at delivery 2 and joins |
| `Service.AsWrittenMissesDelivery` | app/internal/service/service.go:75-106 | on that store the as-written delivery query finds nothing, so the add loop finds no delivery for the order; the corrected query finds it |
| `Service.CollectIds` | app/internal/service/service.go:70-73 | the loop collects the order ids, in order |
| `Service.CollectDeliveryIds` | app/internal/service/service.go:70-73 | the loop of the corrected load collects the orders' delivery ids, in order |
| `Service.CollectPaymentIds` | app/internal/service/service.go:70-73 | the loop of the corrected load collects the orders' payment ids, in order |
| `Service.IndexRows` | app/internal/service/service.go:79-82 | the loop maps each row's id to the row, a later row overriding an earlier one |
| `Service.PartsError` | app/internal/service/service.go:75-96 | the load of the parts fails exactly when one of the three queries (deliveries, payments, items) fails |
| `Service.FetchParts` | app/internal/service/service.go:75-100 | the three queries in order, stopping at the first error; on success, the maps and groups are those of the query results |
| `Service.Service.New` | app/internal/service/service.go:26-44 | the service holds the store and an empty cache of the configured size, any size |
| `Service.Service.CreateExtendedOrder` | app/internal/service/service.go:123-177 | a failure at begin, at any step or at commit is returned as the failing call reported it, and leaves the tables and the cache as they were; success stores the aggregate with new ids and then adds it to the cache as written under its new order id, which must not panic |
| `Service.Service.GetExtendedOrder` | app/internal/service/service.go:179-234 | the lookup appends the id to the eviction list and changes nothing else; a cached id returns the cached aggregate; any other id is read from the store: the order, its items, its payment and its delivery, and the first failing call's error is returned as that call reported it |
| `Service.Service.AddLoaded` | app/internal/service/service.go:102-110 | one Add as written per order, in order, with its delivery, payment and items taken from the maps |
| `Service.Service.CacheOrders` | app/internal/service/service.go:75-116 | the first failing query or the commit failure is returned and clears the cache; success adds every order's joined entry to the cache as written |
| `Service.Service.LoadRecentOrdersToCache` | app/internal/service/service.go:46-121 | as written: a begin failure leaves the cache as it was; any later failure clears it; with no recent order the cache stays as it was; on success each recent order's joined entry is added to the cache as written, in order |
| `Service.ServiceAsIntended.New` | app/internal/service/service.go:26-44 | the corrected service holds the store and an empty corrected cache of the configured size |
| `Service.ServiceAsIntended.CreateExtendedOrder` | app/internal/service/service.go:123-177 | the same failures and tables; success adds the aggregate to the corrected cache, which keeps it bounded and never panics |
| `Service.ServiceAsIntended.GetExtendedOrder` | app/internal/service/service.go:179-234 | with the corrected cache the lookup changes nothing; a cached id returns the cached aggregate; any other id is read from the store as above |
| `Service.ServiceAsIntended.AddLoaded` | app/internal/service/service.go:102-110 | one corrected Add per order, in order, keeping the cache bounded |
| `Service.ServiceAsIntended.CacheOrders` | app/internal/service/service.go:75-116 | the same errors and clearing; success adds every order's joined entry to the corrected cache |
| `Service.ServiceAsIntended.LoadRecentOrdersToCache` | app/internal/service/service.go:46-121 | the load with the delivery and payment queried by their own ids and the corrected cache: success needs only that the recent orders join |

## Left out

- Concurrency: the cache's mutex, the shared connection pool and concurrent
  requests are not modelled. Every method runs atomically.
- Logging (zap), the HTTP handler, the stream consumer, configuration
  loading, migrations and process start-up are not part of this model.
- Real time: `time.After` and `ctx.Done()` become a cancellation oracle over
  ticks. A retry run records the waits it would start rather than waiting.
- Randomness: `rand.Float64()` becomes a parameter in [0, 1).
- Floating point: amounts and the exponential schedule are reals. Float
  rounding, `math.Pow` on fractional or negative exponents, and 64-bit
  overflow of `time.Duration` are not modelled.
- The `tx == nil` branches of the repository methods are modelled like the
  branches inside a transaction. The service always passes a transaction.
- The trivial constructors `New…Repository` and the accessors
  `Orders()`, `Items()`, `Delivery()` and `Payment()` are left out.
- nil slices and empty slices are not told apart.
- `orders_repository.go` selects a column `order_id` and `queries.go`
  inserts `order_uid`. The schema is not part of this model, and both are
  taken to be the order uid.
- `payment_repository.go` names its table `payment` in inserts and in
  GetByOrderIDs, and `payments` elsewhere. The model treats both as one
  table.
- The service's read transaction and the load's transaction are modelled
  by their errors alone. Their rollback is not modelled, because they
  write nothing.
- Service.Service.CreateExtendedOrder and Service.Service.GetExtendedOrder:
  a nil aggregate dereference is not modelled, because the service only
  receives non-nil aggregates.
- Service.Service.CreateExtendedOrder: the panic of the cache's Add on an
  empty eviction list (cache.go:30) is stated as a precondition. The
  success path requires that the new order id can be added. Likewise,
  Service.Service.AddLoaded, Service.Service.CacheOrders and
  Service.Service.LoadRecentOrdersToCache require that none of their Adds
  panics.
- ExtendedOrderRepository.CreateExtendedOrder, Service.Service.CreateExtendedOrder
  and Service.ServiceAsIntended.CreateExtendedOrder: a nil element of
  `eo.Items` cannot occur, because the items are a sequence of values. The
  source dereferences each element (extended_order_repository.go:73,
  service.go:157) and would panic on a nil one.
- Service.Service.CreateExtendedOrder and
  Service.ServiceAsIntended.CreateExtendedOrder: the Go method fills in the
  new ids inside the caller's aggregate. The model returns only the error;
  the aggregate with its new ids is the one the cache receives
  (`InsertExtended(...).eo`).
- Service.ServiceAsIntended.New: it requires a cache size of at least 1,
  which the corrected cache needs to stay bounded.
- Service.Service.LoadRecentOrdersToCache: the nil dereference at
  service.go:105-106 is stated as a precondition. The precondition is that
  every recent order's delivery and payment ids are among the order ids and
  that the order joins.
- ItemsRepository.CreateItems: a pgx batch that reads ids after a failed
  statement is not modelled. Reading stops at the first failure, as in the
  loop.
- RetryDo.Do: the loop is modelled only when it ends. The precondition is
  that it is bounded, that the context is eventually done, or that an
  attempt eventually ends it. The Go loop can otherwise run forever.

## Findings

| source | as written | input that shows it | evidently intended | confidence | as-written member | corrected member |
|---|---|---|---|---|---|---|
| app/internal/retry/retry.go:46-48 | `if err = f(attempt); err != nil { return nil }`: a failed attempt ends Do with nil | maxAttempts 3, f(0) fails: Do returns nil after one call. With the service classifier, an always-successful f runs 3 times and ends "all attempts failed: nil" | return nil when the attempt succeeds | high (not executed) | `Retry.FailureReportedAsSuccess` | `Retry.NilIffLastCallSucceeded` |
| app/internal/retry/do.go:19-21 | the same inverted test in the stand-alone loop | maxAttempts 1, f(0) fails: Do returns nil | return nil when the attempt succeeds | high (not executed) | `RetryDo.AsWrittenNeverFails` | `RetryDo.BoundedReturnsLastError` |
| app/internal/repository/extended_order_repository.go:118-131 | the join selects 33 columns (queries.go:12 lists region and email) but the scan gives 31 destinations; the same at lines 193-204 | any id whose order joins its delivery and payment: the scan fails, and so does GetLastExtendedOrders on any non-empty table | scan the delivery's region and email too | high (not executed) | `ExtendedOrderRepository.GetExtendedOrder` | `ExtendedOrderRepository.GetExtendedOrderAsIntended` |
| app/internal/cache/cache.go:29-34 | Add never appends the key to the eviction list; Get appends every looked-up key | capacity 1, Add(1), Get(5), Add(2): key 5 is "evicted" and the map holds 2 keys. Capacity 1, Add(1), Add(2) with no Get: `c.list[0]` on an empty list panics | first-in first-out: Add records each new key, Get changes nothing | high (not executed) | `Cache.AsWrittenGrowsPastCapacity` | `Cache.InsertedBounded` |
| app/internal/app/app.go:56-60 and app/internal/service/service.go:172 | the startup load's limit is the cache size, and the cache's Add never records a key | a store holding at least as many orders as the cache size: the load fills the cache with an empty eviction list, and the next order created with a new uid reaches `c.list[0]` on an empty list at cache.go:30 | the oldest cached order is evicted | high (not executed) | `Service.AsWrittenCreateAfterFullWarmUpPanics` | `Service.ServiceAsIntended.CreateExtendedOrder` |
| app/internal/service/service.go:75-91 | the deliveries and payments are queried by ORDER ids and matched on their own ids | order 1 pointing at delivery 2 (delivery id 1 was used by a rolled-back write): the delivery map lacks key 2 and line 105 dereferences nil | query the deliveries and payments by the orders' delivery and payment ids | high (not executed) | `Service.AsWrittenMissesDelivery` | `Service.AsIntendedLoadedEntries` |
| app/internal/repository/items_repository.go:55 | `.Scan(item.ID)` passes the id by value (also at line 72) | any item with no store failure: the row is inserted, but pgx refuses a non-pointer destination and CreateItem returns an error | `.Scan(&item.ID)` | high (not executed) | `ItemsRepository.AsWrittenCreateItemFails` | `ItemsRepository.CreateItemAsIntended` |
