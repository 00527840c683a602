/**
 * The PostgreSQL store the repositories talk to: four tables whose rows are
 * kept in insertion order, one sequence per table for the serial ids, and
 * transactions as snapshots of the tables. A sequence is never rolled back,
 * as in PostgreSQL. A statement that fails does so with an error supplied by
 * the caller (the `fault` parameters) and then changes nothing.
 */
module Store {
  import opened Wrappers
  import opened Errors
  import opened Models

  datatype Tables = Tables(orders: seq<Order>, deliveries: seq<Delivery>, payments: seq<Payment>, items: seq<Item>)

  /** The next value of each table's id sequence. */
  datatype Serials = Serials(order: int, delivery: int, payment: int, item: int)

  // ---------------------------------------------------------------------
  // Rows and keys

  /** Serial ids: every key is at least 1 and below the sequence's next value,
      which is at least 1; keys strictly increase in insertion order. */
  predicate Keyed<T>(rows: seq<T>, key: T -> int, next: int)
  {
    1 <= next &&
    (forall i :: 0 <= i < |rows| ==> 1 <= key(rows[i]) < next) &&
    (forall i, j :: 0 <= i < j < |rows| ==> key(rows[i]) < key(rows[j]))
  }

  /** `WHERE id = $1` on a single-row query: the row with that key, if any. */
  function Lookup<T>(rows: seq<T>, key: T -> int, id: int): (r: Option<T>)
    ensures r.Some? ==> r.value in rows && key(r.value) == id
    ensures r.None? <==> forall i :: 0 <= i < |rows| ==> key(rows[i]) != id
  {
    if |rows| == 0 then None
    else if key(rows[0]) == id then Some(rows[0])
    else Lookup(rows[1..], key, id)
  }

  /** The rows a `WHERE` clause keeps, in table order. */
  function Filter<T>(rows: seq<T>, keep: T -> bool): (r: seq<T>)
    ensures |r| <= |rows|
    ensures forall x :: x in r ==> x in rows && keep(x)
    ensures forall x :: x in rows && keep(x) ==> x in r
  {
    if |rows| == 0 then []
    else (if keep(rows[0]) then [rows[0]] else []) + Filter(rows[1..], keep)
  }

  /** `UPDATE ... WHERE id = $1`: every row with the key of `row` becomes `row`. */
  function Replace<T>(rows: seq<T>, key: T -> int, row: T): (r: seq<T>)
    ensures |r| == |rows|
    ensures forall i :: 0 <= i < |r| ==> key(r[i]) == key(rows[i])
  {
    seq(|rows|, i requires 0 <= i < |rows| => if key(rows[i]) == key(row) then row else rows[i])
  }

  /** `DELETE ... WHERE id = $1`. */
  function Remove<T>(rows: seq<T>, key: T -> int, id: int): seq<T>
  {
    Filter(rows, (x: T) => key(x) != id)
  }

  /** Inserting a row with the next serial keeps the table keyed, and the new
      row is found under its id. */
  lemma {:induction false} KeyedAppend<T>(rows: seq<T>, key: T -> int, next: int, row: T)
    requires Keyed(rows, key, next) && key(row) == next
    ensures Keyed(rows + [row], key, next + 1)
    ensures Lookup(rows + [row], key, next) == Some(row)
  {
    var r := rows + [row];
    forall i | 0 <= i < |r|
      ensures 1 <= key(r[i]) < next + 1
    {
      if i < |rows| {
        assert r[i] == rows[i];
      }
    }
    forall i, j | 0 <= i < j < |r|
      ensures key(r[i]) < key(r[j])
    {
      assert r[i] == rows[i];
      if j < |rows| {
        assert r[j] == rows[j];
      }
    }
    forall j | 0 <= j < |rows|
      ensures key(r[j]) != key(r[|rows|])
    {
      assert r[j] == rows[j];
    }
    LookupFirst(r, key, |rows|);
  }

  /** A sequence that has moved on keeps every table keyed. */
  lemma KeyedGrow<T>(rows: seq<T>, key: T -> int, next: int, later: int)
    requires Keyed(rows, key, next) && next <= later
    ensures Keyed(rows, key, later)
  {
  }

  /** Deleting rows keeps the table keyed. */
  lemma {:induction false} KeyedFilter<T>(rows: seq<T>, key: T -> int, next: int, keep: T -> bool)
    requires Keyed(rows, key, next)
    ensures Keyed(Filter(rows, keep), key, next)
  {
    if |rows| > 0 {
      KeyedFilter(rows[1..], key, next, keep);
      var rest := Filter(rows[1..], keep);
      var r := Filter(rows, keep);
      if keep(rows[0]) {
        assert r == [rows[0]] + rest;
        forall j | 0 < j < |r|
          ensures key(r[0]) < key(r[j])
        {
          assert r[j] in rows[1..];
          var k :| 0 <= k < |rows[1..]| && rows[1..][k] == r[j];
          assert rows[k + 1] == r[j];
        }
      } else {
        assert r == rest;
      }
    }
  }

  /** Updating rows in place keeps the table keyed. */
  lemma KeyedReplace<T>(rows: seq<T>, key: T -> int, next: int, row: T)
    requires Keyed(rows, key, next)
    ensures Keyed(Replace(rows, key, row), key, next)
  {
  }

  /** Read after update: a keyed table holding the key yields the new row. */
  lemma {:induction false} LookupReplaced<T>(rows: seq<T>, key: T -> int, next: int, row: T)
    requires Keyed(rows, key, next) && Lookup(rows, key, key(row)).Some?
    ensures Lookup(Replace(rows, key, row), key, key(row)) == Some(row)
  {
    var r := Replace(rows, key, row);
    var i :| 0 <= i < |rows| && key(rows[i]) == key(row);
    assert r[i] == row;
    LookupFirst(r, key, i);
  }

  /** In a table whose keys are distinct, the row at index i is the one found. */
  lemma {:induction false} LookupFirst<T>(rows: seq<T>, key: T -> int, i: nat)
    requires i < |rows|
    requires forall j :: 0 <= j < i ==> key(rows[j]) != key(rows[i])
    ensures Lookup(rows, key, key(rows[i])) == Some(rows[i])
  {
    if i > 0 {
      LookupFirst(rows[1..], key, i - 1);
    }
  }

  /** Read after delete: the key is gone. */
  lemma RemovedIsGone<T>(rows: seq<T>, key: T -> int, id: int)
    ensures Lookup(Remove(rows, key, id), key, id).None?
  {
    var r := Remove(rows, key, id);
    forall i | 0 <= i < |r|
      ensures key(r[i]) != id
    {
      assert r[i] in r;
    }
  }

  /** `WHERE key = ANY($1)`. */
  function AnyOf<T>(rows: seq<T>, key: T -> int, ids: seq<int>): (r: seq<T>)
    ensures forall x :: x in r ==> x in rows && key(x) in ids
    ensures forall x :: x in rows && key(x) in ids ==> x in r
  {
    Filter(rows, (x: T) => key(x) in ids)
  }

  /** Appending a row to a table appends it to a query's result when the
      row matches. */
  lemma {:induction false} AnyOfAppend<T>(rows: seq<T>, key: T -> int, ids: seq<int>, x: T)
    ensures AnyOf(rows + [x], key, ids) == AnyOf(rows, key, ids) + (if key(x) in ids then [x] else [])
  {
    if |rows| > 0 {
      assert (rows + [x])[1..] == rows[1..] + [x];
      AnyOfAppend(rows[1..], key, ids, x);
    } else {
      assert rows + [x] == [x];
    }
  }

  /** The rows of a concatenation are those of each part. */
  lemma {:induction false} AnyOfConcat<T>(a: seq<T>, b: seq<T>, key: T -> int, ids: seq<int>)
    ensures AnyOf(a + b, key, ids) == AnyOf(a, key, ids) + AnyOf(b, key, ids)
  {
    if |a| > 0 {
      assert (a + b)[1..] == a[1..] + b;
      AnyOfConcat(a[1..], b, key, ids);
    } else {
      assert a + b == b;
    }
  }

  /** A query no row matches is empty; one every row matches is the table. */
  lemma {:induction false} AnyOfExtremes<T>(rows: seq<T>, key: T -> int, ids: seq<int>)
    ensures (forall i :: 0 <= i < |rows| ==> key(rows[i]) !in ids) ==> AnyOf(rows, key, ids) == []
    ensures (forall i :: 0 <= i < |rows| ==> key(rows[i]) in ids) ==> AnyOf(rows, key, ids) == rows
  {
    if |rows| > 0 {
      AnyOfExtremes(rows[1..], key, ids);
      assert forall i :: 0 <= i < |rows[1..]| ==> rows[1..][i] == rows[i + 1];
    }
  }

  /** Narrowing a query to one of its ids is the query for that id. */
  lemma {:induction false} AnyOfNarrow<T>(rows: seq<T>, key: T -> int, ids: seq<int>, id: int)
    requires id in ids
    ensures AnyOf(AnyOf(rows, key, ids), key, [id]) == AnyOf(rows, key, [id])
  {
    if |rows| > 0 {
      AnyOfNarrow(rows[1..], key, ids, id);
      var head := if key(rows[0]) == id then [rows[0]] else [];
      assert AnyOf(rows, key, [id]) == head + AnyOf(rows[1..], key, [id]);
      if key(rows[0]) in ids {
        assert AnyOf(rows, key, ids) == [rows[0]] + AnyOf(rows[1..], key, ids);
        AnyOfConcat([rows[0]], AnyOf(rows[1..], key, ids), key, [id]);
        assert AnyOf([rows[0]], key, [id]) == head;
      } else {
        assert AnyOf(rows, key, ids) == AnyOf(rows[1..], key, ids);
      }
    }
  }

  /** A query for several ids, read back by one key: the row with that key
      when the key is one of the ids, and nothing otherwise. */
  lemma {:induction false} LookupAnyOf<T>(rows: seq<T>, key: T -> int, ids: seq<int>, id: int)
    ensures Lookup(AnyOf(rows, key, ids), key, id) == if id in ids then Lookup(rows, key, id) else None
  {
    if |rows| > 0 {
      LookupAnyOf(rows[1..], key, ids, id);
      var rest := AnyOf(rows[1..], key, ids);
      if key(rows[0]) in ids {
        assert AnyOf(rows, key, ids) == [rows[0]] + rest;
        assert ([rows[0]] + rest)[1..] == rest;
      } else {
        assert AnyOf(rows, key, ids) == rest;
      }
    }
  }

  /** The result of a query on a keyed table is keyed. */
  lemma KeyedAnyOf<T>(rows: seq<T>, key: T -> int, next: int, ids: seq<int>)
    requires Keyed(rows, key, next)
    ensures Keyed(AnyOf(rows, key, ids), key, next)
  {
    KeyedFilter(rows, key, next, (x: T) => key(x) in ids);
  }

  /** Looking up in a table with one more row. */
  lemma {:induction false} LookupAppend<T>(rows: seq<T>, key: T -> int, x: T, id: int)
    ensures Lookup(rows + [x], key, id) ==
            if Lookup(rows, key, id).Some? then Lookup(rows, key, id)
            else if key(x) == id then Some(x) else None
  {
    if |rows| > 0 {
      assert (rows + [x])[1..] == rows[1..] + [x];
      LookupAppend(rows[1..], key, x, id);
    } else {
      assert rows + [x] == [x];
    }
  }

  /** `m[row.ID] = row` over a result set, in order: a later row overwrites
      an earlier one with the same key. */
  function Index<T>(rows: seq<T>, key: T -> int): map<int, T>
  {
    if |rows| == 0 then map[]
    else Index(rows[..|rows| - 1], key)[key(rows[|rows| - 1]) := rows[|rows| - 1]]
  }

  /** Over a keyed result the map holds exactly the rows Lookup finds. */
  lemma {:induction false} IndexIsLookup<T>(rows: seq<T>, key: T -> int, next: int, id: int)
    requires Keyed(rows, key, next)
    ensures id in Index(rows, key) <==> Lookup(rows, key, id).Some?
    ensures id in Index(rows, key) ==> Index(rows, key)[id] == Lookup(rows, key, id).value
  {
    if |rows| > 0 {
      var init := rows[..|rows| - 1];
      var x := rows[|rows| - 1];
      assert rows == init + [x];
      assert Keyed(init, key, next) by {
        forall i, j | 0 <= i < j < |init|
          ensures key(init[i]) < key(init[j])
        {
          assert init[i] == rows[i] && init[j] == rows[j];
        }
      }
      IndexIsLookup(init, key, next, id);
      LookupAppend(init, key, x, id);
      if key(x) == id {
        forall i | 0 <= i < |init|
          ensures key(init[i]) != id
        {
          assert init[i] == rows[i];
        }
      }
    }
  }

  /** The outcome of a write statement: its error and the table after it. */
  datatype Write<T> = Write(err: Option<Error>, rows: seq<T>)

  /** `UPDATE ... WHERE id = $1` as the repositories run it: the command tag's
      RowsAffected() is checked before the error, so a failed statement (whose
      tag is empty) and a missing row are both ErrNoRowsAffected. */
  function ExecUpdate<T>(rows: seq<T>, key: T -> int, row: T, fault: Option<Error>): (w: Write<T>)
    ensures w.err.None? <==> fault.None? && Lookup(rows, key, key(row)).Some?
    ensures w.err.Some? ==> w.err == Some(NoRowsAffected) && w.rows == rows
    ensures w.err.None? ==> w.rows == Replace(rows, key, row)
  {
    if fault.Some? || Lookup(rows, key, key(row)).None? then Write(Some(NoRowsAffected), rows)
    else Write(None, Replace(rows, key, row))
  }

  /** `DELETE ... WHERE id = $1`, with the same RowsAffected() check. */
  function ExecDelete<T>(rows: seq<T>, key: T -> int, id: int, fault: Option<Error>): (w: Write<T>)
    ensures w.err.None? <==> fault.None? && Lookup(rows, key, id).Some?
    ensures w.err.Some? ==> w.err == Some(NoRowsAffected) && w.rows == rows
    ensures w.err.None? ==> Lookup(w.rows, key, id).None? && |w.rows| < |rows|
    ensures w.err.None? ==> w.rows == Remove(rows, key, id)
    ensures w.err.None? ==> forall other :: other != id ==> Lookup(w.rows, key, other) == Lookup(rows, key, other)
  {
    if fault.Some? || Lookup(rows, key, id).None? then Write(Some(NoRowsAffected), rows)
    else
      RemovedIsGone(rows, key, id);
      RemoveShrinks(rows, key, id);
      RemoveKeepsOthers(rows, key, id);
      Write(None, Remove(rows, key, id))
  }

  /** Deleting one key leaves what every other key finds as it was. */
  lemma {:induction false} RemoveKeepsOthers<T>(rows: seq<T>, key: T -> int, id: int)
    ensures forall other :: other != id ==> Lookup(Remove(rows, key, id), key, other) == Lookup(rows, key, other)
  {
    if |rows| > 0 {
      RemoveKeepsOthers(rows[1..], key, id);
      if key(rows[0]) == id {
        assert Remove(rows, key, id) == Remove(rows[1..], key, id);
      } else {
        assert Remove(rows, key, id) == [rows[0]] + Remove(rows[1..], key, id);
      }
    }
  }

  /** Deleting a present key removes at least one row. */
  lemma {:induction false} RemoveShrinks<T>(rows: seq<T>, key: T -> int, id: int)
    requires Lookup(rows, key, id).Some?
    ensures |Remove(rows, key, id)| < |rows|
  {
    if key(rows[0]) == id {
      assert Remove(rows, key, id) == Remove(rows[1..], key, id);
    } else {
      RemoveShrinks(rows[1..], key, id);
      assert Remove(rows, key, id) == [rows[0]] + Remove(rows[1..], key, id);
    }
  }

  /** A keyed table stays keyed under an update ... */
  lemma UpdateKeepsKeyed<T>(rows: seq<T>, key: T -> int, next: int, row: T, fault: Option<Error>)
    requires Keyed(rows, key, next)
    ensures Keyed(ExecUpdate(rows, key, row, fault).rows, key, next)
  {
    KeyedReplace(rows, key, next, row);
  }

  /** ... and under a delete. */
  lemma DeleteKeepsKeyed<T>(rows: seq<T>, key: T -> int, next: int, id: int, fault: Option<Error>)
    requires Keyed(rows, key, next)
    ensures Keyed(ExecDelete(rows, key, id, fault).rows, key, next)
  {
    KeyedFilter(rows, key, next, (x: T) => key(x) != id);
  }

  // ---------------------------------------------------------------------
  // Result streams

  /** How a `rows.Next()` iteration ends: after every row, or broken off
      after `n` rows with error `e`, which `rows.Err()` then reports. */
  datatype Stream = Complete | BrokenAfter(n: nat, e: Error)

  /** How many rows the iteration yields. */
  function Delivered(total: nat, s: Stream): (n: nat)
    ensures n <= total
    ensures s.Complete? ==> n == total
  {
    if s.BrokenAfter? && s.n < total then s.n else total
  }

  /** The `for rows.Next() { rows.Scan(...); append }` loop, with `rows.Err()`. */
  method Fetch<T>(rows: seq<T>, s: Stream) returns (got: seq<T>, err: Option<Error>)
    ensures got == rows[..Delivered(|rows|, s)]
    ensures s.Complete? ==> got == rows
    ensures err.Some? <==> s.BrokenAfter?
    ensures s.BrokenAfter? ==> err == Some(s.e)
  {
    got := [];
    var i := 0;
    while i < |rows| && !(s.BrokenAfter? && i >= s.n)
      invariant i <= Delivered(|rows|, s)
      invariant got == rows[..i]
    {
      got := got + [rows[i]];
      i := i + 1;
    }
    err := if s.BrokenAfter? then Some(s.e) else None;
    assert rows[..|rows|] == rows;
  }

  // ---------------------------------------------------------------------
  // The database

  /** Every table is keyed by its own sequence. */
  predicate Consistent(t: Tables, s: Serials)
  {
    Keyed(t.orders, OrderKey, s.order) && Keyed(t.deliveries, DeliveryKey, s.delivery) &&
    Keyed(t.payments, PaymentKey, s.payment) && Keyed(t.items, ItemKey, s.item)
  }

  /** Sequences only move forward. */
  predicate SerialsAdvance(s: Serials, later: Serials)
  {
    s.order <= later.order && s.delivery <= later.delivery &&
    s.payment <= later.payment && s.item <= later.item
  }

  /** Rolling back to a snapshot keeps the store consistent, although the
      sequences are not rolled back. */
  lemma {:induction false} RollbackConsistent(snapshot: Tables, s: Serials, later: Serials)
    requires Consistent(snapshot, s) && SerialsAdvance(s, later)
    ensures Consistent(snapshot, later)
  {
    KeyedGrow(snapshot.orders, OrderKey, s.order, later.order);
    KeyedGrow(snapshot.deliveries, DeliveryKey, s.delivery, later.delivery);
    KeyedGrow(snapshot.payments, PaymentKey, s.payment, later.payment);
    KeyedGrow(snapshot.items, ItemKey, s.item, later.item);
  }

  class Database {
    var tables: Tables
    var serials: Serials

    predicate Valid()
      reads this
    {
      Consistent(tables, serials)
    }

    constructor Empty()
      ensures Valid() && tables == Tables([], [], [], []) && serials == Serials(1, 1, 1, 1)
    {
      tables := Tables([], [], [], []);
      serials := Serials(1, 1, 1, 1);
    }

    /** Begin: a transaction remembers the tables it started from. */
    method Begin(fault: Option<Error>) returns (tx: Result<Tables>)
      ensures fault.Some? ==> tx == Err(fault.value)
      ensures fault.None? ==> tx == Ok(tables)
    {
      if fault.Some? {
        return Err(fault.value);
      }
      return Ok(tables);
    }

    /** Rollback: the tables return to the snapshot; the sequences do not. */
    method Rollback(snapshot: Tables)
      requires Valid() && Consistent(snapshot, serials)
      modifies this
      ensures Valid() && tables == snapshot && serials == old(serials)
    {
      tables := snapshot;
    }

    /** Commit: a failed commit aborts the transaction. */
    method Commit(snapshot: Tables, fault: Option<Error>) returns (err: Option<Error>)
      requires Valid() && Consistent(snapshot, serials)
      modifies this
      ensures Valid() && err == fault && serials == old(serials)
      ensures tables == if fault.Some? then snapshot else old(tables)
    {
      if fault.Some? {
        tables := snapshot;
      }
      return fault;
    }
  }
}
