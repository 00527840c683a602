/**
 * The payment repository (app/internal/repository/payment_repository.go):
 * rows of the payment table, keyed by a serial id. Inserts and the
 * GetByOrderIDs query name the table `payment`, the other statements
 * `payments`; here they are one table.
 */
module PaymentRepository {
  import opened Wrappers
  import opened Errors
  import opened Models
  import opened Store

  /** Create: inserts the payment and scans the new serial id into it. The
      result `out` is the pointee after the call. */
  method Create(db: Database, payment: Option<Payment>, fault: Option<Error>)
    returns (err: Option<Error>, out: Option<Payment>)
    requires db.Valid()
    modifies db
    ensures db.Valid()
    ensures payment.None? ==> err == Some(NilValue) && out.None? && unchanged(db)
    ensures payment.Some? && fault.Some? ==> err == WrapDBError(fault) && out == payment && unchanged(db)
    ensures payment.Some? && fault.None? ==>
              err.None? && out == Some(payment.value.(id := old(db.serials.payment))) &&
              db.tables == old(db.tables).(payments := old(db.tables.payments) + [out.value]) &&
              db.serials == old(db.serials).(payment := old(db.serials.payment) + 1)
  {
    if payment.None? {
      return Some(NilValue), None;
    }
    if fault.Some? {
      return WrapDBError(fault), payment;
    }
    var p := payment.value.(id := db.serials.payment);
    KeyedAppend(db.tables.payments, PaymentKey, db.serials.payment, p);
    db.tables := db.tables.(payments := db.tables.payments + [p]);
    db.serials := db.serials.(payment := db.serials.payment + 1);
    return None, Some(p);
  }

  /** Get: the payment with id `id`. A missing row is ErrNotFound; a failed
      query is reported through wrapDBError. */
  function Get(t: Tables, id: int, fault: Option<Error>): (r: Result<Payment>)
    ensures id <= 0 ==> r == Err(InvalidID)
    ensures id > 0 && fault.Some? ==> r == Err(WrapDBError(fault).value)
    ensures r.Ok? ==> fault.None? && r.value in t.payments && r.value.id == id
    ensures id > 0 && fault.None? && r.Err? ==>
              r.error == ErrNotFound && forall i :: 0 <= i < |t.payments| ==> t.payments[i].id != id
  {
    if id <= 0 then Err(InvalidID)
    else if fault.Some? then Err(WrapDBError(fault).value)
    else match Lookup(t.payments, PaymentKey, id)
      case None => Err(ErrNotFound)
      case Some(p) => Ok(p)
  }

  /** GetByOrderIDs: the payments whose own id is one of `ids`, in table
      order; no ids means no query and an empty result. */
  method GetByOrderIDs(db: Database, ids: seq<int>, fault: Option<Error>, stream: Stream)
    returns (r: Result<seq<Payment>>)
    ensures |ids| == 0 ==> r == Ok([])
    ensures |ids| > 0 && fault.Some? ==> r == Err(WrapDBError(fault).value)
    ensures |ids| > 0 && fault.None? && stream.BrokenAfter? ==> r == Err(WrapDBError(Some(stream.e)).value)
    ensures |ids| > 0 && fault.None? && stream.Complete? ==> r == Ok(AnyOf(db.tables.payments, PaymentKey, ids))
  {
    if |ids| == 0 {
      return Ok([]);
    }
    if fault.Some? {
      return Err(WrapDBError(fault).value);
    }
    var got, err := Fetch(AnyOf(db.tables.payments, PaymentKey, ids), stream);
    if err.Some? {
      return Err(WrapDBError(err).value);
    }
    return Ok(got);
  }

  /** Update: a nil payment is ErrNilValue; otherwise every column but the id
      is overwritten (a non-positive id simply matches no row). */
  method Update(db: Database, payment: Option<Payment>, fault: Option<Error>) returns (err: Option<Error>)
    requires db.Valid()
    modifies db
    ensures db.Valid() && db.serials == old(db.serials)
    ensures payment.None? ==> err == Some(NilValue) && db.tables == old(db.tables)
    ensures payment.Some? ==>
              var w := ExecUpdate(old(db.tables.payments), PaymentKey, payment.value, fault);
              err == w.err && db.tables == old(db.tables).(payments := w.rows)
  {
    if payment.None? {
      return Some(NilValue);
    }
    var w := ExecUpdate(db.tables.payments, PaymentKey, payment.value, fault);
    UpdateKeepsKeyed(db.tables.payments, PaymentKey, db.serials.payment, payment.value, fault);
    db.tables := db.tables.(payments := w.rows);
    return w.err;
  }

  /** Delete: a non-positive id is ErrInvalidID. */
  method Delete(db: Database, id: int, fault: Option<Error>) returns (err: Option<Error>)
    requires db.Valid()
    modifies db
    ensures db.Valid() && db.serials == old(db.serials)
    ensures id <= 0 ==> err == Some(InvalidID) && db.tables == old(db.tables)
    ensures id > 0 ==>
              var w := ExecDelete(old(db.tables.payments), PaymentKey, id, fault);
              err == w.err && db.tables == old(db.tables).(payments := w.rows)
  {
    if id <= 0 {
      return Some(InvalidID);
    }
    var w := ExecDelete(db.tables.payments, PaymentKey, id, fault);
    DeleteKeepsKeyed(db.tables.payments, PaymentKey, db.serials.payment, id, fault);
    db.tables := db.tables.(payments := w.rows);
    return w.err;
  }

  /** A delete leaves every other id reading as before. */
  lemma DeleteKeepsOthers(t: Tables, id: int, fault: Option<Error>)
    ensures var w := ExecDelete(t.payments, PaymentKey, id, fault);
            w.err.None? ==> forall other :: other != id ==> Get(t.(payments := w.rows), other, None) == Get(t, other, None)
  {
    var w := ExecDelete(t.payments, PaymentKey, id, fault);
    if w.err.None? {
      forall other | other != id
        ensures Get(t.(payments := w.rows), other, None) == Get(t, other, None)
      {
        assert Lookup(w.rows, PaymentKey, other) == Lookup(t.payments, PaymentKey, other);
      }
    }
  }

  /** Reading back what was written: Get finds a created payment under its
      new id, finds an updated payment as written, and no longer finds a
      deleted one, while every
      other id reads as before. */
  lemma ReadYourWrites(t: Tables, s: Serials, p: Payment, id: int, fault: Option<Error>)
    requires Consistent(t, s)
    ensures var created := p.(id := s.payment);
            Get(t.(payments := t.payments + [created]), s.payment, None) == Ok(created)
    ensures var w := ExecUpdate(t.payments, PaymentKey, p, fault);
            w.err.None? ==> Get(t.(payments := w.rows), p.id, None) == Ok(p)
    ensures var w := ExecDelete(t.payments, PaymentKey, id, fault);
            id > 0 && w.err.None? ==> Get(t.(payments := w.rows), id, None) == Err(ErrNotFound)
    ensures var w := ExecDelete(t.payments, PaymentKey, id, fault);
            id > 0 && w.err.None? ==> forall other :: other != id ==> Get(t.(payments := w.rows), other, None) == Get(t, other, None)
  {
    DeleteKeepsOthers(t, id, fault);
    KeyedAppend(t.payments, PaymentKey, s.payment, p.(id := s.payment));
    if Lookup(t.payments, PaymentKey, p.id).Some? {
      LookupReplaced(t.payments, PaymentKey, s.payment, p);
    }
  }
}
