/**
 * The delivery repository (app/internal/repository/delivery_repository.go):
 * rows of the `delivery` table, keyed by a serial id.
 */
module DeliveryRepository {
  import opened Wrappers
  import opened Errors
  import opened Models
  import opened Store

  /** Create: inserts the delivery and scans the new serial id into it. The
      result `out` is the pointee after the call. */
  method Create(db: Database, delivery: Option<Delivery>, fault: Option<Error>)
    returns (err: Option<Error>, out: Option<Delivery>)
    requires db.Valid()
    modifies db
    ensures db.Valid()
    ensures delivery.None? ==> err == Some(NilValue) && out.None? && unchanged(db)
    ensures delivery.Some? && fault.Some? ==> err == WrapDBError(fault) && out == delivery && unchanged(db)
    ensures delivery.Some? && fault.None? ==>
              err.None? && out == Some(delivery.value.(id := old(db.serials.delivery))) &&
              db.tables == old(db.tables).(deliveries := old(db.tables.deliveries) + [out.value]) &&
              db.serials == old(db.serials).(delivery := old(db.serials.delivery) + 1)
  {
    if delivery.None? {
      return Some(NilValue), None;
    }
    if fault.Some? {
      return WrapDBError(fault), delivery;
    }
    var d := delivery.value.(id := db.serials.delivery);
    KeyedAppend(db.tables.deliveries, DeliveryKey, db.serials.delivery, d);
    db.tables := db.tables.(deliveries := db.tables.deliveries + [d]);
    db.serials := db.serials.(delivery := db.serials.delivery + 1);
    return None, Some(d);
  }

  /** Get: the delivery with id `id`. A missing row is ErrNotFound; a failed
      query is reported through wrapDBError. */
  function Get(t: Tables, id: int, fault: Option<Error>): (r: Result<Delivery>)
    ensures id <= 0 ==> r == Err(InvalidID)
    ensures id > 0 && fault.Some? ==> r == Err(WrapDBError(fault).value)
    ensures r.Ok? ==> fault.None? && r.value in t.deliveries && r.value.id == id
    ensures id > 0 && fault.None? && r.Err? ==>
              r.error == ErrNotFound && forall i :: 0 <= i < |t.deliveries| ==> t.deliveries[i].id != id
  {
    if id <= 0 then Err(InvalidID)
    else if fault.Some? then Err(WrapDBError(fault).value)
    else match Lookup(t.deliveries, DeliveryKey, id)
      case None => Err(ErrNotFound)
      case Some(d) => Ok(d)
  }

  /** GetByOrderIDs: the deliveries whose own id is one of `ids`, in table
      order; no ids means no query and an empty result. */
  method GetByOrderIDs(db: Database, ids: seq<int>, fault: Option<Error>, stream: Stream)
    returns (r: Result<seq<Delivery>>)
    ensures |ids| == 0 ==> r == Ok([])
    ensures |ids| > 0 && fault.Some? ==> r == Err(WrapDBError(fault).value)
    ensures |ids| > 0 && fault.None? && stream.BrokenAfter? ==> r == Err(WrapDBError(Some(stream.e)).value)
    ensures |ids| > 0 && fault.None? && stream.Complete? ==> r == Ok(AnyOf(db.tables.deliveries, DeliveryKey, ids))
  {
    if |ids| == 0 {
      return Ok([]);
    }
    if fault.Some? {
      return Err(WrapDBError(fault).value);
    }
    var got, err := Fetch(AnyOf(db.tables.deliveries, DeliveryKey, ids), stream);
    if err.Some? {
      return Err(WrapDBError(err).value);
    }
    return Ok(got);
  }

  /** Update: a nil delivery or a non-positive id is ErrNilValue; otherwise
      every column but the id is overwritten. */
  method Update(db: Database, delivery: Option<Delivery>, fault: Option<Error>) returns (err: Option<Error>)
    requires db.Valid()
    modifies db
    ensures db.Valid() && db.serials == old(db.serials)
    ensures delivery.None? || delivery.value.id <= 0 ==> err == Some(NilValue) && db.tables == old(db.tables)
    ensures delivery.Some? && delivery.value.id > 0 ==>
              var w := ExecUpdate(old(db.tables.deliveries), DeliveryKey, delivery.value, fault);
              err == w.err && db.tables == old(db.tables).(deliveries := w.rows)
  {
    if delivery.None? || delivery.value.id <= 0 {
      return Some(NilValue);
    }
    var w := ExecUpdate(db.tables.deliveries, DeliveryKey, delivery.value, fault);
    UpdateKeepsKeyed(db.tables.deliveries, DeliveryKey, db.serials.delivery, delivery.value, fault);
    db.tables := db.tables.(deliveries := w.rows);
    return w.err;
  }

  /** Delete: a non-positive id is ErrInvalidID. */
  method Delete(db: Database, id: int, fault: Option<Error>) returns (err: Option<Error>)
    requires db.Valid()
    modifies db
    ensures db.Valid() && db.serials == old(db.serials)
    ensures id <= 0 ==> err == Some(InvalidID) && db.tables == old(db.tables)
    ensures id > 0 ==>
              var w := ExecDelete(old(db.tables.deliveries), DeliveryKey, id, fault);
              err == w.err && db.tables == old(db.tables).(deliveries := w.rows)
  {
    if id <= 0 {
      return Some(InvalidID);
    }
    var w := ExecDelete(db.tables.deliveries, DeliveryKey, id, fault);
    DeleteKeepsKeyed(db.tables.deliveries, DeliveryKey, db.serials.delivery, id, fault);
    db.tables := db.tables.(deliveries := w.rows);
    return w.err;
  }

  /** A delete leaves every other id reading as before. */
  lemma DeleteKeepsOthers(t: Tables, id: int, fault: Option<Error>)
    ensures var w := ExecDelete(t.deliveries, DeliveryKey, id, fault);
            w.err.None? ==> forall other :: other != id ==> Get(t.(deliveries := w.rows), other, None) == Get(t, other, None)
  {
    var w := ExecDelete(t.deliveries, DeliveryKey, id, fault);
    if w.err.None? {
      forall other | other != id
        ensures Get(t.(deliveries := w.rows), other, None) == Get(t, other, None)
      {
        assert Lookup(w.rows, DeliveryKey, other) == Lookup(t.deliveries, DeliveryKey, other);
      }
    }
  }

  /** Reading back what was written: Get finds a created delivery under its
      new id, finds an updated delivery as written, and no longer finds a
      deleted one, while every
      other id reads as before. */
  lemma ReadYourWrites(t: Tables, s: Serials, d: Delivery, id: int, fault: Option<Error>)
    requires Consistent(t, s)
    ensures var created := d.(id := s.delivery);
            Get(t.(deliveries := t.deliveries + [created]), s.delivery, None) == Ok(created)
    ensures var w := ExecUpdate(t.deliveries, DeliveryKey, d, fault);
            w.err.None? ==> Get(t.(deliveries := w.rows), d.id, None) == Ok(d)
    ensures var w := ExecDelete(t.deliveries, DeliveryKey, id, fault);
            id > 0 && w.err.None? ==> Get(t.(deliveries := w.rows), id, None) == Err(ErrNotFound)
    ensures var w := ExecDelete(t.deliveries, DeliveryKey, id, fault);
            id > 0 && w.err.None? ==> forall other :: other != id ==> Get(t.(deliveries := w.rows), other, None) == Get(t, other, None)
  {
    DeleteKeepsOthers(t, id, fault);
    KeyedAppend(t.deliveries, DeliveryKey, s.delivery, d.(id := s.delivery));
    if Lookup(t.deliveries, DeliveryKey, d.id).Some? {
      LookupReplaced(t.deliveries, DeliveryKey, s.delivery, d);
    }
  }
}
