/**
 * The orders repository (app/internal/repository/orders_repository.go): rows
 * of the `orders` table, keyed by a serial id, with a unique order uid.
 */
module OrdersRepository {
  import opened Wrappers
  import opened Errors
  import opened Models
  import opened Store

  // ---------------------------------------------------------------------
  // The unique order uid and the upsert

  /** The first order with uid `uid`. */
  function FindByUid(rows: seq<Order>, uid: string): (r: Option<Order>)
    ensures r.Some? ==> r.value in rows && r.value.orderUid == uid
    ensures r.None? <==> forall i :: 0 <= i < |rows| ==> rows[i].orderUid != uid
  {
    if |rows| == 0 then None
    else if rows[0].orderUid == uid then Some(rows[0])
    else FindByUid(rows[1..], uid)
  }

  /** The unique index on order_uid. */
  predicate UniqueUids(rows: seq<Order>)
  {
    forall i, j :: 0 <= i < j < |rows| ==> rows[i].orderUid != rows[j].orderUid
  }

  /** The id an insert returns and the table after it. */
  datatype Upserted = Upserted(id: int, rows: seq<Order>)

  /** `INSERT ... ON CONFLICT (order_uid) DO UPDATE SET order_uid =
      EXCLUDED.order_uid RETURNING id`: a new uid gets the next serial; a
      known uid returns the stored order's id and leaves the stored order as
      it was. */
  function Upsert(rows: seq<Order>, next: int, o: Order): (u: Upserted)
    ensures FindByUid(rows, o.orderUid).Some? ==> u.rows == rows && Lookup(rows, OrderKey, u.id).Some?
    ensures FindByUid(rows, o.orderUid).None? ==> u.id == next && u.rows == rows + [o.(id := next)]
  {
    match FindByUid(rows, o.orderUid)
    case Some(stored) => Upserted(stored.id, rows)
    case None => Upserted(next, rows + [o.(id := next)])
  }

  /** After an upsert the uid is stored, under the returned id, and the
      table stays keyed (the sequence has advanced either way) with unique
      uids. */
  lemma {:induction false} UpsertStores(rows: seq<Order>, next: int, o: Order)
    requires Keyed(rows, OrderKey, next) && UniqueUids(rows)
    ensures var u := Upsert(rows, next, o);
            Keyed(u.rows, OrderKey, next + 1) && UniqueUids(u.rows) &&
            Lookup(u.rows, OrderKey, u.id).Some? &&
            Lookup(u.rows, OrderKey, u.id).value.orderUid == o.orderUid
  {
    var u := Upsert(rows, next, o);
    match FindByUid(rows, o.orderUid)
    case Some(stored) =>
      var i :| 0 <= i < |rows| && rows[i] == stored;
      LookupFirst(rows, OrderKey, i);
      KeyedGrow(rows, OrderKey, next, next + 1);
    case None =>
      KeyedAppend(rows, OrderKey, next, o.(id := next));
      AppendKeepsUidsUnique(rows, o.(id := next));
  }

  /** Appending an order whose uid is not stored keeps the uids unique. */
  lemma AppendKeepsUidsUnique(rows: seq<Order>, o: Order)
    requires UniqueUids(rows) && FindByUid(rows, o.orderUid).None?
    ensures UniqueUids(rows + [o])
  {
    var r := rows + [o];
    forall i, j | 0 <= i < j < |r|
      ensures r[i].orderUid != r[j].orderUid
    {
      assert r[i] == rows[i];
      if j < |rows| {
        assert r[j] == rows[j];
      }
    }
  }

  /** A replayed insert of the same uid returns the same id and changes no
      row. */
  lemma UpsertIdempotent(rows: seq<Order>, next: int, o: Order, o2: Order)
    requires o2.orderUid == o.orderUid
    ensures var u := Upsert(rows, next, o);
            Upsert(u.rows, next + 1, o2) == u
  {
    var u := Upsert(rows, next, o);
    if FindByUid(rows, o.orderUid).None? {
      FindAppended(rows, o.(id := next));
    }
  }

  /** A uid absent from the table is found in the row appended for it. */
  lemma {:induction false} FindAppended(rows: seq<Order>, o: Order)
    requires FindByUid(rows, o.orderUid).None?
    ensures FindByUid(rows + [o], o.orderUid) == Some(o)
  {
    if |rows| > 0 {
      assert (rows + [o])[1..] == rows[1..] + [o];
      FindAppended(rows[1..], o);
    } else {
      assert rows + [o] == [o];
    }
  }

  /** Create: a nil order is ErrNilValue; otherwise the upsert, whose id is
      scanned into the order. The sequence advances on every executed insert,
      also on a uid conflict. */
  method Create(db: Database, order: Option<Order>, fault: Option<Error>)
    returns (err: Option<Error>, out: Option<Order>)
    requires db.Valid() && UniqueUids(db.tables.orders)
    modifies db
    ensures db.Valid() && UniqueUids(db.tables.orders)
    ensures order.None? ==> err == Some(NilValue) && out.None? && unchanged(db)
    ensures order.Some? && fault.Some? ==> err == WrapDBError(fault) && out == order && unchanged(db)
    ensures order.Some? && fault.None? ==>
              var u := Upsert(old(db.tables.orders), old(db.serials.order), order.value);
              err.None? && out == Some(order.value.(id := u.id)) &&
              db.tables == old(db.tables).(orders := u.rows) &&
              db.serials == old(db.serials).(order := old(db.serials.order) + 1)
  {
    if order.None? {
      return Some(NilValue), None;
    }
    if fault.Some? {
      return WrapDBError(fault), order;
    }
    var u := Upsert(db.tables.orders, db.serials.order, order.value);
    UpsertStores(db.tables.orders, db.serials.order, order.value);
    db.tables := db.tables.(orders := u.rows);
    db.serials := db.serials.(order := db.serials.order + 1);
    return None, Some(order.value.(id := u.id));
  }

  /** Get: the order with id `id`; a missing row is ErrNotFound through
      wrapDBError. */
  function Get(t: Tables, id: int, fault: Option<Error>): (r: Result<Order>)
    ensures id <= 0 ==> r == Err(InvalidID)
    ensures id > 0 && fault.Some? ==> r == Err(WrapDBError(fault).value)
    ensures r.Ok? ==> fault.None? && r.value in t.orders && r.value.id == id
    ensures id > 0 && fault.None? && r.Err? ==>
              r.error == ErrNotFound && forall i :: 0 <= i < |t.orders| ==> t.orders[i].id != id
  {
    if id <= 0 then Err(InvalidID)
    else if fault.Some? then Err(WrapDBError(fault).value)
    else match Lookup(t.orders, OrderKey, id)
      case None => Err(WrapDBError(Some(NoRows)).value)
      case Some(o) => Ok(o)
  }

  // ---------------------------------------------------------------------
  // The most recent orders

  /** Newest first by date_created. */
  predicate Descending(s: seq<Order>)
  {
    forall i, j :: 0 <= i < j < |s| ==> s[i].dateCreated >= s[j].dateCreated
  }

  function InsertNewest(o: Order, sorted: seq<Order>): seq<Order>
  {
    if |sorted| == 0 || o.dateCreated >= sorted[0].dateCreated then [o] + sorted
    else [sorted[0]] + InsertNewest(o, sorted[1..])
  }

  /** `ORDER BY date_created DESC`; orders with the same date stay in table
      order. */
  function NewestFirst(rows: seq<Order>): seq<Order>
  {
    if |rows| == 0 then [] else InsertNewest(rows[0], NewestFirst(rows[1..]))
  }

  lemma {:induction false} InsertNewestPermutes(o: Order, sorted: seq<Order>)
    ensures multiset(InsertNewest(o, sorted)) == multiset(sorted) + multiset{o}
    ensures |InsertNewest(o, sorted)| == |sorted| + 1
  {
    if |sorted| > 0 && o.dateCreated < sorted[0].dateCreated {
      InsertNewestPermutes(o, sorted[1..]);
      assert sorted == [sorted[0]] + sorted[1..];
    }
  }

  /** An order put in front of descending orders, and no older than any of
      them, keeps them descending. */
  lemma ConsDescending(x: Order, rest: seq<Order>)
    requires Descending(rest)
    requires forall j :: 0 <= j < |rest| ==> x.dateCreated >= rest[j].dateCreated
    ensures Descending([x] + rest)
  {
    var r := [x] + rest;
    forall i, j | 0 <= i < j < |r|
      ensures r[i].dateCreated >= r[j].dateCreated
    {
      assert r[j] == rest[j - 1];
      if i > 0 {
        assert r[i] == rest[i - 1];
      }
    }
  }

  /** When `o` goes past the head, the head stays at least as new as every
      order of the rest it is inserted into. */
  lemma HeadBoundsInsert(o: Order, sorted: seq<Order>)
    requires Descending(sorted) && |sorted| > 0 && o.dateCreated < sorted[0].dateCreated
    ensures forall j :: 0 <= j < |InsertNewest(o, sorted[1..])| ==>
              sorted[0].dateCreated >= InsertNewest(o, sorted[1..])[j].dateCreated
  {
    var rest := InsertNewest(o, sorted[1..]);
    InsertNewestPermutes(o, sorted[1..]);
    forall j | 0 <= j < |rest|
      ensures sorted[0].dateCreated >= rest[j].dateCreated
    {
      var x := rest[j];
      assert x in multiset(rest);
      if x != o {
        assert x in multiset(sorted[1..]);
        var k :| 0 <= k < |sorted[1..]| && sorted[1..][k] == x;
        assert sorted[k + 1] == x;
      }
    }
  }

  lemma {:induction false} InsertNewestSorted(o: Order, sorted: seq<Order>)
    requires Descending(sorted)
    ensures Descending(InsertNewest(o, sorted))
  {
    if |sorted| > 0 && o.dateCreated < sorted[0].dateCreated {
      assert Descending(sorted[1..]) by {
        forall i, j | 0 <= i < j < |sorted[1..]|
          ensures sorted[1..][i].dateCreated >= sorted[1..][j].dateCreated
        {
          assert sorted[1..][i] == sorted[i + 1] && sorted[1..][j] == sorted[j + 1];
        }
      }
      InsertNewestSorted(o, sorted[1..]);
      HeadBoundsInsert(o, sorted);
      ConsDescending(sorted[0], InsertNewest(o, sorted[1..]));
    } else {
      ConsDescending(o, sorted);
    }
  }

  /** NewestFirst sorts: the result is descending and a permutation. */
  lemma {:induction false} NewestFirstSorts(rows: seq<Order>)
    ensures Descending(NewestFirst(rows))
    ensures multiset(NewestFirst(rows)) == multiset(rows)
    ensures |NewestFirst(rows)| == |rows|
  {
    if |rows| > 0 {
      NewestFirstSorts(rows[1..]);
      InsertNewestSorted(rows[0], NewestFirst(rows[1..]));
      InsertNewestPermutes(rows[0], NewestFirst(rows[1..]));
      assert rows == [rows[0]] + rows[1..];
    }
  }

  /** `ORDER BY date_created DESC LIMIT n`. */
  function LastN(rows: seq<Order>, n: nat): seq<Order>
  {
    var sorted := NewestFirst(rows);
    if n < |sorted| then sorted[..n] else sorted
  }

  /** A prefix of a descending sequence is descending, and nothing after
      it is newer than anything in it. */
  lemma PrefixIsNewest(sorted: seq<Order>, k: nat)
    requires Descending(sorted) && k <= |sorted|
    ensures Descending(sorted[..k])
    ensures multiset(sorted[..k]) <= multiset(sorted)
    ensures forall x, i :: x in multiset(sorted) - multiset(sorted[..k]) && 0 <= i < k ==>
              x.dateCreated <= sorted[..k][i].dateCreated
  {
    assert sorted == sorted[..k] + sorted[k..];
    assert multiset(sorted) - multiset(sorted[..k]) == multiset(sorted[k..]);
    forall x, i | x in multiset(sorted[k..]) && 0 <= i < k
      ensures x.dateCreated <= sorted[..k][i].dateCreated
    {
      var j :| 0 <= j < |sorted[k..]| && sorted[k..][j] == x;
      assert sorted[k + j] == x;
    }
  }

  /** LastN returns min(n, |rows|) orders of the table, newest first, and
      every order it leaves out is no newer than any it returns. */
  lemma LastNIsNewest(rows: seq<Order>, n: nat)
    ensures |LastN(rows, n)| == if n < |rows| then n else |rows|
    ensures Descending(LastN(rows, n))
    ensures multiset(LastN(rows, n)) <= multiset(rows)
    ensures forall x, i :: x in multiset(rows) - multiset(LastN(rows, n)) && 0 <= i < |LastN(rows, n)| ==>
              x.dateCreated <= LastN(rows, n)[i].dateCreated
  {
    NewestFirstSorts(rows);
    var sorted := NewestFirst(rows);
    var k := if n < |sorted| then n else |sorted|;
    assert LastN(rows, n) == sorted[..k];
    PrefixIsNewest(sorted, k);
  }

  /** No two orders share an id. */
  predicate DistinctIds(s: seq<Order>)
  {
    forall i, j :: 0 <= i < j < |s| ==> s[i].id != s[j].id
  }

  /** An order put in front of orders with distinct ids, none of them its
      own, keeps the ids distinct. */
  lemma ConsDistinct(x: Order, rest: seq<Order>)
    requires DistinctIds(rest)
    requires forall j :: 0 <= j < |rest| ==> x.id != rest[j].id
    ensures DistinctIds([x] + rest)
  {
    var r := [x] + rest;
    forall i, j | 0 <= i < j < |r|
      ensures r[i].id != r[j].id
    {
      assert r[j] == rest[j - 1];
      if i > 0 {
        assert r[i] == rest[i - 1];
      }
    }
  }

  /** When `o` goes past the head, the head's id is none of the ids of the
      rest it is inserted into. */
  lemma HeadIdApart(o: Order, sorted: seq<Order>)
    requires DistinctIds(sorted) && forall i :: 0 <= i < |sorted| ==> sorted[i].id != o.id
    requires |sorted| > 0
    ensures forall j :: 0 <= j < |InsertNewest(o, sorted[1..])| ==>
              sorted[0].id != InsertNewest(o, sorted[1..])[j].id
  {
    var rest := InsertNewest(o, sorted[1..]);
    InsertNewestPermutes(o, sorted[1..]);
    forall j | 0 <= j < |rest|
      ensures sorted[0].id != rest[j].id
    {
      var x := rest[j];
      assert x in multiset(rest);
      if x != o {
        assert x in multiset(sorted[1..]);
        var k :| 0 <= k < |sorted[1..]| && sorted[1..][k] == x;
        assert sorted[k + 1] == x;
      }
    }
  }

  lemma {:induction false} InsertNewestDistinct(o: Order, sorted: seq<Order>)
    requires DistinctIds(sorted) && forall i :: 0 <= i < |sorted| ==> sorted[i].id != o.id
    ensures DistinctIds(InsertNewest(o, sorted))
  {
    if |sorted| > 0 && o.dateCreated < sorted[0].dateCreated {
      assert DistinctIds(sorted[1..]) by {
        forall i, j | 0 <= i < j < |sorted[1..]|
          ensures sorted[1..][i].id != sorted[1..][j].id
        {
          assert sorted[1..][i] == sorted[i + 1] && sorted[1..][j] == sorted[j + 1];
        }
      }
      assert forall i :: 0 <= i < |sorted[1..]| ==> sorted[1..][i].id != o.id by {
        forall i | 0 <= i < |sorted[1..]|
          ensures sorted[1..][i].id != o.id
        {
          assert sorted[1..][i] == sorted[i + 1];
        }
      }
      InsertNewestDistinct(o, sorted[1..]);
      HeadIdApart(o, sorted);
      ConsDistinct(sorted[0], InsertNewest(o, sorted[1..]));
    } else {
      ConsDistinct(o, sorted);
    }
  }

  /** Sorting keeps ids distinct. */
  lemma {:induction false} NewestFirstDistinct(rows: seq<Order>)
    requires DistinctIds(rows)
    ensures DistinctIds(NewestFirst(rows))
  {
    if |rows| > 0 {
      var sorted := NewestFirst(rows[1..]);
      NewestFirstDistinct(rows[1..]);
      NewestFirstSorts(rows[1..]);
      forall i | 0 <= i < |sorted|
        ensures sorted[i].id != rows[0].id
      {
        assert sorted[i] in multiset(rows[1..]);
        var k :| 0 <= k < |rows[1..]| && rows[1..][k] == sorted[i];
        assert rows[k + 1] == sorted[i];
      }
      InsertNewestDistinct(rows[0], sorted);
    }
  }

  /** The most recent orders of a keyed table have distinct ids. */
  lemma LastNDistinct(rows: seq<Order>, next: int, n: nat)
    requires Keyed(rows, OrderKey, next)
    ensures DistinctIds(LastN(rows, n))
  {
    NewestFirstDistinct(rows);
  }

  /** GetLastN: a non-positive n is ErrInvalidID. */
  method GetLastN(db: Database, n: int, fault: Option<Error>, stream: Stream) returns (r: Result<seq<Order>>)
    ensures n <= 0 ==> r == Err(InvalidID)
    ensures n > 0 && fault.Some? ==> r == Err(WrapDBError(fault).value)
    ensures n > 0 && fault.None? && stream.BrokenAfter? ==> r == Err(WrapDBError(Some(stream.e)).value)
    ensures n > 0 && fault.None? && stream.Complete? ==> r == Ok(LastN(db.tables.orders, n))
  {
    if n <= 0 {
      return Err(InvalidID);
    }
    if fault.Some? {
      return Err(WrapDBError(fault).value);
    }
    var got, err := Fetch(LastN(db.tables.orders, n), stream);
    if err.Some? {
      return Err(WrapDBError(err).value);
    }
    return Ok(got);
  }

  // ---------------------------------------------------------------------
  // Update and delete

  /** Another order already holds the uid: the unique index rejects it. */
  predicate UidTaken(rows: seq<Order>, uid: string, id: int)
  {
    exists i :: 0 <= i < |rows| && rows[i].orderUid == uid && rows[i].id != id
  }

  /** The row an update writes: every column of `o` but date_created, which
      keeps its stored value. */
  function Stored(rows: seq<Order>, o: Order): Order
  {
    match Lookup(rows, OrderKey, o.id)
    case Some(current) => o.(dateCreated := current.dateCreated)
    case None => o
  }

  /** The UPDATE statement, which fails on a uid held by another order. */
  function UpdateOrder(rows: seq<Order>, o: Order, fault: Option<Error>): (w: Write<Order>)
  {
    var failure := if fault.Some? then fault
                   else if UidTaken(rows, o.orderUid, o.id) then Some(PgError(UniqueViolation, "orders_order_uid_key"))
                   else None;
    ExecUpdate(rows, OrderKey, Stored(rows, o), failure)
  }

  /** An update either changes nothing and reports ErrNoRowsAffected (a
      missing row, a taken uid or any store failure, a unique violation
      included) or stores every column of `o` but date_created, keeping the
      table keyed with unique uids. */
  lemma {:induction false} UpdateOrderEffect(rows: seq<Order>, next: int, o: Order, fault: Option<Error>)
    requires Keyed(rows, OrderKey, next) && UniqueUids(rows)
    ensures var w := UpdateOrder(rows, o, fault);
            Keyed(w.rows, OrderKey, next) && UniqueUids(w.rows) &&
            (w.err.Some? ==> w.err == Some(NoRowsAffected) && w.rows == rows) &&
            (w.err.None? <==> fault.None? && !UidTaken(rows, o.orderUid, o.id) && Lookup(rows, OrderKey, o.id).Some?) &&
            (w.err.None? ==> Lookup(w.rows, OrderKey, o.id) ==
                               Some(o.(dateCreated := Lookup(rows, OrderKey, o.id).value.dateCreated)))
  {
    var w := UpdateOrder(rows, o, fault);
    var s := Stored(rows, o);
    UpdateKeepsKeyed(rows, OrderKey, next, s, if fault.Some? then fault
                   else if UidTaken(rows, o.orderUid, o.id) then Some(PgError(UniqueViolation, "orders_order_uid_key"))
                   else None);
    if w.err.None? {
      LookupReplaced(rows, OrderKey, next, s);
      forall i, j | 0 <= i < j < |w.rows|
        ensures w.rows[i].orderUid != w.rows[j].orderUid
      {
        if rows[i].id == o.id {
          assert w.rows[i] == s && w.rows[j] == rows[j];
        } else if rows[j].id == o.id {
          assert w.rows[j] == s && w.rows[i] == rows[i];
        } else {
          assert w.rows[i] == rows[i] && w.rows[j] == rows[j];
        }
      }
    }
  }

  /** Update: a nil order is ErrNilValue. */
  method Update(db: Database, order: Option<Order>, fault: Option<Error>) returns (err: Option<Error>)
    requires db.Valid() && UniqueUids(db.tables.orders)
    modifies db
    ensures db.Valid() && UniqueUids(db.tables.orders) && db.serials == old(db.serials)
    ensures order.None? ==> err == Some(NilValue) && db.tables == old(db.tables)
    ensures order.Some? ==>
              var w := UpdateOrder(old(db.tables.orders), order.value, fault);
              err == w.err && db.tables == old(db.tables).(orders := w.rows)
  {
    if order.None? {
      return Some(NilValue);
    }
    var w := UpdateOrder(db.tables.orders, order.value, fault);
    UpdateOrderEffect(db.tables.orders, db.serials.order, order.value, fault);
    db.tables := db.tables.(orders := w.rows);
    return w.err;
  }

  /** Deleting rows keeps the uids unique. */
  lemma {:induction false} RemoveKeepsUidsUnique(rows: seq<Order>, id: int)
    requires UniqueUids(rows)
    ensures UniqueUids(Remove(rows, OrderKey, id))
  {
    if |rows| > 0 {
      RemoveKeepsUidsUnique(rows[1..], id);
      var rest := Remove(rows[1..], OrderKey, id);
      if rows[0].id != id {
        var r := [rows[0]] + rest;
        assert Remove(rows, OrderKey, id) == r;
        forall j | 0 < j < |r|
          ensures r[0].orderUid != r[j].orderUid
        {
          assert r[j] in rows[1..];
          var k :| 0 <= k < |rows[1..]| && rows[1..][k] == r[j];
          assert rows[k + 1] == r[j];
        }
      } else {
        assert Remove(rows, OrderKey, id) == rest;
      }
    }
  }

  /** Delete: a non-positive id is ErrInvalidID. */
  method Delete(db: Database, id: int, fault: Option<Error>) returns (err: Option<Error>)
    requires db.Valid() && UniqueUids(db.tables.orders)
    modifies db
    ensures db.Valid() && UniqueUids(db.tables.orders) && db.serials == old(db.serials)
    ensures id <= 0 ==> err == Some(InvalidID) && db.tables == old(db.tables)
    ensures id > 0 ==>
              var w := ExecDelete(old(db.tables.orders), OrderKey, id, fault);
              err == w.err && db.tables == old(db.tables).(orders := w.rows)
  {
    if id <= 0 {
      return Some(InvalidID);
    }
    var w := ExecDelete(db.tables.orders, OrderKey, id, fault);
    DeleteKeepsKeyed(db.tables.orders, OrderKey, db.serials.order, id, fault);
    RemoveKeepsUidsUnique(db.tables.orders, id);
    db.tables := db.tables.(orders := w.rows);
    return w.err;
  }

  /** A delete leaves every other id reading as before. */
  lemma DeleteKeepsOthers(t: Tables, id: int, fault: Option<Error>)
    ensures var w := ExecDelete(t.orders, OrderKey, id, fault);
            w.err.None? ==> forall other :: other != id ==> Get(t.(orders := w.rows), other, None) == Get(t, other, None)
  {
    var w := ExecDelete(t.orders, OrderKey, id, fault);
    if w.err.None? {
      forall other | other != id
        ensures Get(t.(orders := w.rows), other, None) == Get(t, other, None)
      {
        assert Lookup(w.rows, OrderKey, other) == Lookup(t.orders, OrderKey, other);
      }
    }
  }

  /** Reading back what was written: Get finds a created order under the id
      Create returned, and no longer finds a deleted one, while every
      other id reads as before. */
  lemma ReadYourWrites(t: Tables, s: Serials, o: Order, id: int, fault: Option<Error>)
    requires Consistent(t, s) && UniqueUids(t.orders)
    ensures var u := Upsert(t.orders, s.order, o);
            Get(t.(orders := u.rows), u.id, None).Ok? &&
            Get(t.(orders := u.rows), u.id, None).value.orderUid == o.orderUid
    ensures var w := ExecDelete(t.orders, OrderKey, id, fault);
            id > 0 && w.err.None? ==> Get(t.(orders := w.rows), id, None) == Err(ErrNotFound)
    ensures var w := ExecDelete(t.orders, OrderKey, id, fault);
            id > 0 && w.err.None? ==> forall other :: other != id ==> Get(t.(orders := w.rows), other, None) == Get(t, other, None)
  {
    DeleteKeepsOthers(t, id, fault);
    UpsertStores(t.orders, s.order, o);
  }
}
