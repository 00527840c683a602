/**
 * The items repository (app/internal/repository/items_repository.go): rows
 * of the `items` table, keyed by a serial id and pointing at their order.
 * A slice of `*models.Item` is a sequence of `Option<Item>` (an element may
 * be nil); the items after a call are returned as `out`.
 */
module ItemsRepository {
  import opened Wrappers
  import opened Errors
  import opened Models
  import opened Store

  // ---------------------------------------------------------------------
  // Inserting

  /** A batch of new items numbered by the sequence from `next` on. */
  function Numbered(xs: seq<Item>, next: int): (r: seq<Item>)
    ensures |r| == |xs|
    ensures forall i :: 0 <= i < |xs| ==> r[i] == xs[i].(id := next + i)
  {
    seq(|xs|, i requires 0 <= i < |xs| => xs[i].(id := next + i))
  }

  /** Inserting a numbered batch keeps the table keyed. */
  lemma {:induction false} NumberedKeyed(rows: seq<Item>, next: int, xs: seq<Item>)
    requires Keyed(rows, ItemKey, next)
    ensures Keyed(rows + Numbered(xs, next), ItemKey, next + |xs|)
  {
    var r := rows + Numbered(xs, next);
    forall i | 0 <= i < |r|
      ensures 1 <= ItemKey(r[i]) < next + |xs|
    {
      if i < |rows| {
        assert r[i] == rows[i];
      }
    }
    forall i, j | 0 <= i < j < |r|
      ensures ItemKey(r[i]) < ItemKey(r[j])
    {
      if j < |rows| {
        assert r[i] == rows[i] && r[j] == rows[j];
      } else if i < |rows| {
        assert r[i] == rows[i];
      }
    }
  }

  /** Each item of an inserted batch is found under its new id. */
  lemma {:induction false} NumberedFound(rows: seq<Item>, next: int, xs: seq<Item>)
    requires Keyed(rows, ItemKey, next)
    ensures forall i :: 0 <= i < |xs| ==>
              Lookup(rows + Numbered(xs, next), ItemKey, next + i) == Some(xs[i].(id := next + i))
  {
    NumberedKeyed(rows, next, xs);
    var r := rows + Numbered(xs, next);
    forall i | 0 <= i < |xs|
      ensures Lookup(r, ItemKey, next + i) == Some(xs[i].(id := next + i))
    {
      assert r[|rows| + i] == xs[i].(id := next + i);
      LookupFirst(r, ItemKey, |rows| + i);
    }
  }

  /** CreateItem as written: the insert runs, but its id is scanned into
      `item.ID` passed by value, which pgx refuses; the error is returned
      and the item keeps its id. */
  method CreateItem(db: Database, item: Option<Item>, fault: Option<Error>)
    returns (err: Option<Error>, out: Option<Item>)
    requires db.Valid()
    modifies db
    ensures db.Valid()
    ensures item.None? ==> err == Some(NilValue) && out.None? && unchanged(db)
    ensures item.Some? && fault.Some? ==> err == WrapDBError(fault) && out == item && unchanged(db)
    ensures item.Some? && fault.None? ==>
              err == Some(ScanNonPointer) && out == item &&
              db.tables == old(db.tables).(items := old(db.tables.items) + [item.value.(id := old(db.serials.item))]) &&
              db.serials == old(db.serials).(item := old(db.serials.item) + 1)
  {
    if item.None? {
      return Some(NilValue), None;
    }
    if fault.Some? {
      return WrapDBError(fault), item;
    }
    var x := item.value.(id := db.serials.item);
    KeyedAppend(db.tables.items, ItemKey, db.serials.item, x);
    db.tables := db.tables.(items := db.tables.items + [x]);
    db.serials := db.serials.(item := db.serials.item + 1);
    return WrapDBError(Some(ScanNonPointer)), item;
  }

  /** CreateItem as intended (`Scan(&item.ID)`): the item gets its new id. */
  method CreateItemAsIntended(db: Database, item: Option<Item>, fault: Option<Error>)
    returns (err: Option<Error>, out: Option<Item>)
    requires db.Valid()
    modifies db
    ensures db.Valid()
    ensures item.None? ==> err == Some(NilValue) && out.None? && unchanged(db)
    ensures item.Some? && fault.Some? ==> err == WrapDBError(fault) && out == item && unchanged(db)
    ensures item.Some? && fault.None? ==>
              err.None? && out == Some(item.value.(id := old(db.serials.item))) &&
              db.tables == old(db.tables).(items := old(db.tables.items) + [out.value]) &&
              db.serials == old(db.serials).(item := old(db.serials.item) + 1)
  {
    if item.None? {
      return Some(NilValue), None;
    }
    if fault.Some? {
      return WrapDBError(fault), item;
    }
    var x := item.value.(id := db.serials.item);
    KeyedAppend(db.tables.items, ItemKey, db.serials.item, x);
    db.tables := db.tables.(items := db.tables.items + [x]);
    db.serials := db.serials.(item := db.serials.item + 1);
    return None, Some(x);
  }

  /** As written, CreateItem reports an error for every item it stores,
      although the row is there. */
  lemma AsWrittenCreateItemFails(t: Tables, s: Serials, x: Item)
    requires Consistent(t, s)
    ensures WrapDBError(Some(ScanNonPointer)) == Some(ScanNonPointer)
    ensures Get(t.(items := t.items + [x.(id := s.item)]), s.item, None) == Ok(x.(id := s.item))
  {
    KeyedAppend(t.items, ItemKey, s.item, x.(id := s.item));
  }

  /** Every pointer of the slice is non-nil. */
  predicate NoNil(items: seq<Option<Item>>)
  {
    forall i :: 0 <= i < |items| ==> items[i].Some?
  }

  function Values(items: seq<Option<Item>>): (r: seq<Item>)
    requires NoNil(items)
    ensures |r| == |items| && forall i :: 0 <= i < |items| ==> r[i] == items[i].value
  {
    seq(|items|, i requires 0 <= i < |items| => items[i].value)
  }

  /** The position of the first statement of a batch of `n` that fails. */
  function FirstFailure(rowFault: nat -> Option<Error>, from: nat, n: nat): (k: nat)
    requires from <= n
    ensures from <= k <= n
    ensures forall j :: from <= j < k ==> rowFault(j).None?
    ensures k < n ==> rowFault(k).Some?
    decreases n - from
  {
    if from == n || rowFault(from).Some? then from else FirstFailure(rowFault, from + 1, n)
  }

  /** A position with no failure before it that is the end or a failure is
      the first failure. */
  lemma FirstFailureAt(rowFault: nat -> Option<Error>, n: nat, k: nat)
    requires k <= n && (forall j :: 0 <= j < k ==> rowFault(j).None?) && (k < n ==> rowFault(k).Some?)
    ensures FirstFailure(rowFault, 0, n) == k
  {
  }

  /** The items after a batch whose first `k` statements succeeded: those
      carry their new ids. */
  function Renumbered(items: seq<Option<Item>>, k: nat, next: int): (r: seq<Option<Item>>)
    requires NoNil(items) && k <= |items|
    ensures |r| == |items|
    ensures forall i :: 0 <= i < k ==> r[i] == Some(items[i].value.(id := next + i))
    ensures forall i :: k <= i < |items| ==> r[i] == items[i]
  {
    seq(|items|, i requires 0 <= i < |items| => if i < k then Some(items[i].value.(id := next + i)) else items[i])
  }

  /** One more statement of the batch succeeded. */
  lemma BatchStep(items: seq<Option<Item>>, xs: seq<Item>, next: int, i: nat)
    requires NoNil(items) && i < |items| && xs == Values(items)
    ensures Numbered(xs[..i + 1], next) == Numbered(xs[..i], next) + [xs[i].(id := next + i)]
    ensures Renumbered(items, i, next)[i := Some(xs[i].(id := next + i))] == Renumbered(items, i + 1, next)
  {
  }

  /** The ids of the batch read back in order (`br.QueryRow().Scan`), up to
      the first statement that fails: `k` statements took effect, adding
      `added` to the table, and the first `k` items carry their new ids. */
  method ReadBack(items: seq<Option<Item>>, next: int, rowFault: nat -> Option<Error>)
    returns (k: nat, added: seq<Item>, out: seq<Option<Item>>)
    requires NoNil(items)
    ensures k == FirstFailure(rowFault, 0, |items|)
    ensures added == Numbered(Values(items)[..k], next)
    ensures out == Renumbered(items, k, next)
  {
    ghost var xs := Values(items);
    added, out := [], items;
    k := 0;
    while k < |items| && rowFault(k).None?
      invariant k <= |items|
      invariant forall j: nat :: j < k ==> rowFault(j).None?
      invariant added == Numbered(xs[..k], next)
      invariant out == Renumbered(items, k, next)
    {
      var x := items[k].value.(id := next + k);
      BatchStep(items, xs, next, k);
      added := added + [x];
      out := out[k := Some(x)];
      k := k + 1;
    }
    FirstFailureAt(rowFault, |items|, k);
  }

  /** CreateItems: an empty slice does nothing; a nil element is
      ErrNilValue before anything is sent; otherwise the inserts are sent as
      one batch and their ids are read back in order, stopping at the first
      statement that fails (statement `j` fails with `rowFault(j)`). Inside
      the caller's transaction the statements after a failed one do not
      take effect. */
  method CreateItems(db: Database, items: seq<Option<Item>>, rowFault: nat -> Option<Error>)
    returns (err: Option<Error>, out: seq<Option<Item>>)
    requires db.Valid()
    modifies db
    ensures db.Valid()
    ensures |items| == 0 ==> err.None? && out == items && unchanged(db)
    ensures |items| > 0 && !NoNil(items) ==> err == Some(NilValue) && out == items && unchanged(db)
    ensures |items| > 0 && NoNil(items) ==>
              var k := FirstFailure(rowFault, 0, |items|);
              var next := old(db.serials.item);
              err == (if k < |items| then WrapDBError(rowFault(k)) else None) &&
              out == Renumbered(items, k, next) &&
              db.tables == old(db.tables).(items := old(db.tables.items) + Numbered(Values(items)[..k], next)) &&
              db.serials == old(db.serials).(item := next + k)
  {
    out := items;
    if |items| == 0 {
      return None, out;
    }
    var n := 0;
    while n < |items|
      invariant n <= |items|
      invariant forall j :: 0 <= j < n ==> items[j].Some?
      invariant unchanged(db)
    {
      if items[n].None? {
        return Some(NilValue), out;
      }
      n := n + 1;
    }
    var next := db.serials.item;
    var k, added;
    k, added, out := ReadBack(items, next, rowFault);
    NumberedKeyed(db.tables.items, next, Values(items)[..k]);
    db.tables := db.tables.(items := db.tables.items + added);
    db.serials := db.serials.(item := next + k);
    err := if k < |items| then WrapDBError(rowFault(k)) else None;
  }

  // ---------------------------------------------------------------------
  // Reading

  /** Get: the item with id `id`; a missing row is ErrNotFound through
      wrapDBError. */
  function Get(t: Tables, id: int, fault: Option<Error>): (r: Result<Item>)
    ensures id <= 0 ==> r == Err(InvalidID)
    ensures id > 0 && fault.Some? ==> r == Err(WrapDBError(fault).value)
    ensures r.Ok? ==> fault.None? && r.value in t.items && r.value.id == id
    ensures id > 0 && fault.None? && r.Err? ==>
              r.error == ErrNotFound && forall i :: 0 <= i < |t.items| ==> t.items[i].id != id
  {
    if id <= 0 then Err(InvalidID)
    else if fault.Some? then Err(WrapDBError(fault).value)
    else match Lookup(t.items, ItemKey, id)
      case None => Err(WrapDBError(Some(NoRows)).value)
      case Some(x) => Ok(x)
  }

  /** GetItems: the items of one order, in table order. The iteration's
      final error is never consulted, so a broken result stream yields the
      items read so far; no item at all is ErrNotFound. */
  method GetItems(db: Database, orderID: int, fault: Option<Error>, stream: Stream) returns (r: Result<seq<Item>>)
    ensures orderID <= 0 ==> r == Err(InvalidID)
    ensures orderID > 0 && fault.Some? ==> r == Err(WrapDBError(fault).value)
    ensures orderID > 0 && fault.None? ==>
              var all := AnyOf(db.tables.items, ItemOrderKey, [orderID]);
              var got := all[..Delivered(|all|, stream)];
              r == if |got| == 0 then Err(ErrNotFound) else Ok(got)
  {
    if orderID <= 0 {
      return Err(InvalidID);
    }
    if fault.Some? {
      return Err(WrapDBError(fault).value);
    }
    var got, _ := Fetch(AnyOf(db.tables.items, ItemOrderKey, [orderID]), stream);
    if |got| == 0 {
      return Err(ErrNotFound);
    }
    return Ok(got);
  }

  /** GetByOrderIDs: the items of any of the orders, in table order. */
  method GetByOrderIDs(db: Database, orderIDs: seq<int>, fault: Option<Error>, stream: Stream)
    returns (r: Result<seq<Item>>)
    ensures |orderIDs| == 0 ==> r == Ok([])
    ensures |orderIDs| > 0 && fault.Some? ==> r == Err(WrapDBError(fault).value)
    ensures |orderIDs| > 0 && fault.None? && stream.BrokenAfter? ==> r == Err(WrapDBError(Some(stream.e)).value)
    ensures |orderIDs| > 0 && fault.None? && stream.Complete? ==> r == Ok(AnyOf(db.tables.items, ItemOrderKey, orderIDs))
  {
    if |orderIDs| == 0 {
      return Ok([]);
    }
    if fault.Some? {
      return Err(WrapDBError(fault).value);
    }
    var got, err := Fetch(AnyOf(db.tables.items, ItemOrderKey, orderIDs), stream);
    if err.Some? {
      return Err(WrapDBError(err).value);
    }
    return Ok(got);
  }

  // ---------------------------------------------------------------------
  // Update and delete

  /** Update: a nil item is ErrNilValue, a non-positive id ErrInvalidID. */
  method Update(db: Database, item: Option<Item>, fault: Option<Error>) returns (err: Option<Error>)
    requires db.Valid()
    modifies db
    ensures db.Valid() && db.serials == old(db.serials)
    ensures item.None? ==> err == Some(NilValue) && db.tables == old(db.tables)
    ensures item.Some? && item.value.id <= 0 ==> err == Some(InvalidID) && db.tables == old(db.tables)
    ensures item.Some? && item.value.id > 0 ==>
              var w := ExecUpdate(old(db.tables.items), ItemKey, item.value, fault);
              err == w.err && db.tables == old(db.tables).(items := w.rows)
  {
    if item.None? {
      return Some(NilValue);
    }
    if item.value.id <= 0 {
      return Some(InvalidID);
    }
    var w := ExecUpdate(db.tables.items, ItemKey, item.value, fault);
    UpdateKeepsKeyed(db.tables.items, ItemKey, db.serials.item, item.value, fault);
    db.tables := db.tables.(items := w.rows);
    return w.err;
  }

  /** Delete: a non-positive id is ErrInvalidID. */
  method Delete(db: Database, id: int, fault: Option<Error>) returns (err: Option<Error>)
    requires db.Valid()
    modifies db
    ensures db.Valid() && db.serials == old(db.serials)
    ensures id <= 0 ==> err == Some(InvalidID) && db.tables == old(db.tables)
    ensures id > 0 ==>
              var w := ExecDelete(old(db.tables.items), ItemKey, id, fault);
              err == w.err && db.tables == old(db.tables).(items := w.rows)
  {
    if id <= 0 {
      return Some(InvalidID);
    }
    var w := ExecDelete(db.tables.items, ItemKey, id, fault);
    DeleteKeepsKeyed(db.tables.items, ItemKey, db.serials.item, id, fault);
    db.tables := db.tables.(items := w.rows);
    return w.err;
  }

  /** A delete leaves every other id reading as before. */
  lemma DeleteKeepsOthers(t: Tables, id: int, fault: Option<Error>)
    ensures var w := ExecDelete(t.items, ItemKey, id, fault);
            w.err.None? ==> forall other :: other != id ==> Get(t.(items := w.rows), other, None) == Get(t, other, None)
  {
    var w := ExecDelete(t.items, ItemKey, id, fault);
    if w.err.None? {
      forall other | other != id
        ensures Get(t.(items := w.rows), other, None) == Get(t, other, None)
      {
        assert Lookup(w.rows, ItemKey, other) == Lookup(t.items, ItemKey, other);
      }
    }
  }

  /** Reading back what was written: Get finds each item of a batch under
      its new id, finds an updated item as written, and no longer finds a
      deleted one, while every
      other id reads as before. */
  lemma ReadYourWrites(t: Tables, s: Serials, xs: seq<Item>, x: Item, id: int, fault: Option<Error>)
    requires Consistent(t, s)
    ensures forall i :: 0 <= i < |xs| ==>
              Get(t.(items := t.items + Numbered(xs, s.item)), s.item + i, None) == Ok(xs[i].(id := s.item + i))
    ensures var w := ExecUpdate(t.items, ItemKey, x, fault);
            w.err.None? ==> Get(t.(items := w.rows), x.id, None) == Ok(x)
    ensures var w := ExecDelete(t.items, ItemKey, id, fault);
            id > 0 && w.err.None? ==> Get(t.(items := w.rows), id, None) == Err(ErrNotFound)
    ensures var w := ExecDelete(t.items, ItemKey, id, fault);
            id > 0 && w.err.None? ==> forall other :: other != id ==> Get(t.(items := w.rows), other, None) == Get(t, other, None)
  {
    DeleteKeepsOthers(t, id, fault);
    NumberedFound(t.items, s.item, xs);
    if Lookup(t.items, ItemKey, x.id).Some? {
      LookupReplaced(t.items, ItemKey, s.item, x);
    }
  }
}
