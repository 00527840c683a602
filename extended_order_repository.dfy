/**
 * The extended order repository
 * (app/internal/repository/extended_order_repository.go): an order with its
 * delivery, payment and items, written in one transaction and read back
 * through the join of queries.go.
 */
module ExtendedOrderRepository {
  import opened Wrappers
  import opened Errors
  import opened Models
  import opened Store
  import DeliveryRepository
  import PaymentRepository
  import OrdersRepository
  import ItemsRepository

  // ---------------------------------------------------------------------
  // Writing an extended order

  /** How each statement of the write fails, if it does; `items(j)` is the
      fate of the j-th insert of the item batch. */
  datatype WriteFaults = WriteFaults(
    begin: Option<Error>,
    delivery: Option<Error>,
    payment: Option<Error>,
    order: Option<Error>,
    items: nat -> Option<Error>,
    commit: Option<Error>)

  /** The items, each pointing at order `orderId`. */
  function Owned(items: seq<Item>, orderId: int): (r: seq<Item>)
    ensures |r| == |items|
    ensures forall i :: 0 <= i < |items| ==> r[i] == items[i].(orderId := orderId)
  {
    seq(|items|, i requires 0 <= i < |items| => items[i].(orderId := orderId))
  }

  /** The store and the extended order after every statement succeeded. */
  datatype Stored = Stored(tables: Tables, serials: Serials, eo: ExtendedOrder)

  /** Delivery, payment and order (pointing at both), each numbered by its
      sequence; the items are not yet written. */
  function InsertHead(t: Tables, s: Serials, eo: ExtendedOrder): Stored
  {
    var d := eo.delivery.(id := s.delivery);
    var p := eo.payment.(id := s.payment);
    var o := eo.order.(deliveryId := d.id, paymentId := p.id);
    var u := OrdersRepository.Upsert(t.orders, s.order, o);
    Stored(Tables(u.rows, t.deliveries + [d], t.payments + [p], t.items),
           Serials(s.order + 1, s.delivery + 1, s.payment + 1, s.item),
           eo.(order := o.(id := u.id), delivery := d, payment := p))
  }

  /** Then the items, pointing at the order, numbered by their sequence. */
  function InsertExtended(t: Tables, s: Serials, eo: ExtendedOrder): Stored
  {
    var h := InsertHead(t, s, eo);
    var its := ItemsRepository.Numbered(Owned(eo.items, h.eo.order.id), s.item);
    Stored(h.tables.(items := t.items + its), h.serials.(item := s.item + |eo.items|), h.eo.(items := its))
  }

  /** The error of the first statement that fails, as the repository that ran
      it reports it; none when all of them succeed. */
  function StepError(f: WriteFaults, n: nat): (err: Option<Error>)
    ensures err.None? <==> f.delivery.None? && f.payment.None? && f.order.None? &&
                           ItemsRepository.FirstFailure(f.items, 0, n) == n
  {
    if f.delivery.Some? then WrapDBError(f.delivery)
    else if f.payment.Some? then WrapDBError(f.payment)
    else if f.order.Some? then WrapDBError(f.order)
    else
      var k := ItemsRepository.FirstFailure(f.items, 0, n);
      if k < n then WrapDBError(f.items(k)) else None
  }

  /** The first two statements: the delivery, then the payment, each taking
      the next value of its sequence. */
  method WriteParts(db: Database, eo: ExtendedOrder, f: WriteFaults)
    returns (err: Option<Error>, d: Delivery, p: Payment)
    requires db.Valid()
    modifies db
    ensures db.Valid() && db.tables.orders == old(db.tables.orders)
    ensures SerialsAdvance(old(db.serials), db.serials)
    ensures err == if f.delivery.Some? then WrapDBError(f.delivery) else WrapDBError(f.payment)
    ensures err.None? ==>
              d == eo.delivery.(id := old(db.serials.delivery)) &&
              p == eo.payment.(id := old(db.serials.payment)) &&
              db.tables == Tables(old(db.tables.orders), old(db.tables.deliveries) + [d],
                                  old(db.tables.payments) + [p], old(db.tables.items)) &&
              db.serials == Serials(old(db.serials.order), old(db.serials.delivery) + 1,
                                    old(db.serials.payment) + 1, old(db.serials.item))
  {
    d, p := eo.delivery, eo.payment;
    var e1, od := DeliveryRepository.Create(db, Some(eo.delivery), f.delivery);
    if e1.Some? {
      return e1, d, p;
    }
    var e2, op := PaymentRepository.Create(db, Some(eo.payment), f.payment);
    if e2.Some? {
      return e2, d, p;
    }
    return None, od.value, op.value;
  }

  /** The first three statements: delivery, payment, and the order that
      points at both. */
  method WriteHead(db: Database, eo: ExtendedOrder, f: WriteFaults) returns (err: Option<Error>, out: ExtendedOrder)
    requires db.Valid() && OrdersRepository.UniqueUids(db.tables.orders)
    modifies db
    ensures db.Valid() && OrdersRepository.UniqueUids(db.tables.orders)
    ensures SerialsAdvance(old(db.serials), db.serials)
    ensures err == (if f.delivery.Some? then WrapDBError(f.delivery)
                    else if f.payment.Some? then WrapDBError(f.payment)
                    else WrapDBError(f.order))
    ensures err.None? ==>
              var h := InsertHead(old(db.tables), old(db.serials), eo);
              db.tables == h.tables && db.serials == h.serials && out == h.eo
  {
    out := eo;
    var d, p;
    err, d, p := WriteParts(db, eo, f);
    if err.Some? {
      return;
    }
    var order := eo.order.(deliveryId := d.id, paymentId := p.id);
    var o;
    err, o := OrdersRepository.Create(db, Some(order), f.order);
    if err.Some? {
      return;
    }
    return None, eo.(order := o.value, delivery := d, payment := p);
  }

  /** `item.OrderID = eo.Order.ID` for every item. */
  method Own(items: seq<Item>, orderId: int) returns (owned: seq<Option<Item>>)
    ensures ItemsRepository.NoNil(owned) && ItemsRepository.Values(owned) == Owned(items, orderId)
  {
    owned := [];
    var i := 0;
    while i < |items|
      invariant i <= |items| && |owned| == i
      invariant forall j :: 0 <= j < i ==> owned[j] == Some(items[j].(orderId := orderId))
    {
      owned := owned + [Some(items[i].(orderId := orderId))];
      i := i + 1;
    }
  }

  /** The item batch, every item pointing at order `orderId`. */
  method WriteItems(db: Database, items: seq<Item>, orderId: int, rowFault: nat -> Option<Error>)
    returns (err: Option<Error>, out: seq<Item>)
    requires db.Valid()
    modifies db
    ensures db.Valid()
    ensures db.tables.orders == old(db.tables.orders) && db.serials.order == old(db.serials.order)
    ensures SerialsAdvance(old(db.serials), db.serials)
    ensures var k := ItemsRepository.FirstFailure(rowFault, 0, |items|);
            err == if k < |items| then WrapDBError(rowFault(k)) else None
    ensures err.None? ==>
              var its := ItemsRepository.Numbered(Owned(items, orderId), old(db.serials.item));
              db.tables == old(db.tables).(items := old(db.tables.items) + its) &&
              db.serials == old(db.serials).(item := old(db.serials.item) + |items|) && out == its
  {
    var owned := Own(items, orderId);
    var items';
    err, items' := ItemsRepository.CreateItems(db, owned, rowFault);
    if err.Some? || |items| == 0 {
      return err, [];
    }
    assert ItemsRepository.Values(owned)[..|owned|] == Owned(items, orderId);
    out := ItemsRepository.Values(items');
  }

  /** The statements of the write, in order, stopping at the first failure.
      The transaction around them is the caller's. */
  method WriteSteps(db: Database, eo: ExtendedOrder, f: WriteFaults) returns (err: Option<Error>, out: ExtendedOrder)
    requires db.Valid() && OrdersRepository.UniqueUids(db.tables.orders)
    modifies db
    ensures db.Valid() && OrdersRepository.UniqueUids(db.tables.orders)
    ensures SerialsAdvance(old(db.serials), db.serials)
    ensures err == StepError(f, |eo.items|)
    ensures err.None? ==>
              var st := InsertExtended(old(db.tables), old(db.serials), eo);
              db.tables == st.tables && db.serials == st.serials && out == st.eo
  {
    err, out := WriteHead(db, eo, f);
    if err.Some? {
      return;
    }
    var its;
    err, its := WriteItems(db, eo.items, out.order.id, f.items);
    out := out.(items := its);
  }

  /** CreateExtendedOrder: a nil order is ErrNilValue; otherwise the write
      runs in a transaction that is rolled back on any failure and committed
      otherwise. Every error passes through wrapDBError once more. */
  method CreateExtendedOrder(db: Database, eo: Option<ExtendedOrder>, f: WriteFaults)
    returns (err: Option<Error>, out: Option<ExtendedOrder>)
    requires db.Valid() && OrdersRepository.UniqueUids(db.tables.orders)
    modifies db
    ensures db.Valid() && OrdersRepository.UniqueUids(db.tables.orders)
    ensures SerialsAdvance(old(db.serials), db.serials)
    ensures eo.None? ==> err == Some(NilValue) && unchanged(db)
    ensures eo.Some? && f.begin.Some? ==> err == WrapDBError(f.begin) && unchanged(db)
    ensures eo.Some? && f.begin.None? ==>
              var step := StepError(f, |eo.value.items|);
              var st := InsertExtended(old(db.tables), old(db.serials), eo.value);
              (step.Some? ==> err == WrapDBError(step) && db.tables == old(db.tables)) &&
              (step.None? && f.commit.Some? ==> err == WrapDBError(f.commit) && db.tables == old(db.tables)) &&
              (step.None? && f.commit.None? ==>
                 err.None? && db.tables == st.tables && db.serials == st.serials && out == Some(st.eo))
  {
    if eo.None? {
      return Some(NilValue), None;
    }
    var tx := db.Begin(f.begin);
    if tx.Err? {
      return WrapDBError(Some(tx.error)), None;
    }
    var snapshot := tx.value;
    ghost var serials0 := db.serials;
    var written;
    err, written := WriteSteps(db, eo.value, f);
    RollbackConsistent(snapshot, serials0, db.serials);
    if err.Some? {
      db.Rollback(snapshot);
      return WrapDBError(err), None;
    }
    err := db.Commit(snapshot, f.commit);
    if err.Some? {
      return WrapDBError(err), None;
    }
    return None, Some(written);
  }

  /** The head of a new order: the store stays consistent and the join
      finds the order under its new id with the delivery and payment just
      written. */
  lemma HeadIsJoined(t: Tables, s: Serials, eo: ExtendedOrder)
    requires Consistent(t, s) && OrdersRepository.UniqueUids(t.orders)
    requires OrdersRepository.FindByUid(t.orders, eo.order.orderUid).None?
    ensures var h := InsertHead(t, s, eo);
            Consistent(h.tables, h.serials.(item := s.item)) && OrdersRepository.UniqueUids(h.tables.orders) &&
            h.eo.order.id == s.order &&
            JoinById(h.tables, s.order) == Some(h.eo.(items := []))
  {
    var h := InsertHead(t, s, eo);
    var o := eo.order.(deliveryId := s.delivery, paymentId := s.payment);
    OrdersRepository.UpsertStores(t.orders, s.order, o);
    KeyedAppend(t.orders, OrderKey, s.order, o.(id := s.order));
    KeyedAppend(t.deliveries, DeliveryKey, s.delivery, h.eo.delivery);
    KeyedAppend(t.payments, PaymentKey, s.payment, h.eo.payment);
  }

  /** The items of a new order: the table stays keyed, and exactly the
      written items point at the order. */
  lemma ItemsAreOwned(t: Tables, s: Serials, items: seq<Item>)
    requires Keyed(t.items, ItemKey, s.item)
    requires forall i :: 0 <= i < |t.items| ==> t.items[i].orderId < s.order
    ensures var its := ItemsRepository.Numbered(Owned(items, s.order), s.item);
            Keyed(t.items + its, ItemKey, s.item + |items|) &&
            AnyOf(t.items + its, ItemOrderKey, [s.order]) == its
  {
    var its := ItemsRepository.Numbered(Owned(items, s.order), s.item);
    ItemsRepository.NumberedKeyed(t.items, s.item, Owned(items, s.order));
    AnyOfConcat(t.items, its, ItemOrderKey, [s.order]);
    assert forall i :: 0 <= i < |t.items| ==> ItemOrderKey(t.items[i]) !in [s.order];
    AnyOfExtremes(t.items, ItemOrderKey, [s.order]);
    assert forall i :: 0 <= i < |its| ==> ItemOrderKey(its[i]) in [s.order];
    AnyOfExtremes(its, ItemOrderKey, [s.order]);
  }

  /** Write then read: a new order is found by the join under the id the
      write gave it, with the delivery and payment written beside it, and
      exactly the written items point at it. The store stays consistent. */
  lemma CreatedIsFound(t: Tables, s: Serials, eo: ExtendedOrder)
    requires Consistent(t, s) && OrdersRepository.UniqueUids(t.orders)
    requires OrdersRepository.FindByUid(t.orders, eo.order.orderUid).None?
    requires forall i :: 0 <= i < |t.items| ==> t.items[i].orderId < s.order
    ensures var st := InsertExtended(t, s, eo);
            Consistent(st.tables, st.serials) && OrdersRepository.UniqueUids(st.tables.orders) &&
            JoinById(st.tables, st.eo.order.id) == Some(st.eo.(items := [])) &&
            AnyOf(st.tables.items, ItemOrderKey, [st.eo.order.id]) == st.eo.items
  {
    var h := InsertHead(t, s, eo);
    HeadIsJoined(t, s, eo);
    ItemsAreOwned(t, s, eo.items);
    var st := InsertExtended(t, s, eo);
    assert JoinById(st.tables, s.order) == JoinById(h.tables, s.order);
  }

  /** Replaying a known order uid leaves the order as stored but writes a
      further delivery and payment, which nothing points at, and appends the
      items once more to the stored order. */
  lemma ReplayAddsRows(t: Tables, s: Serials, eo: ExtendedOrder)
    requires OrdersRepository.FindByUid(t.orders, eo.order.orderUid).Some?
    ensures var st := InsertExtended(t, s, eo);
            var id := OrdersRepository.FindByUid(t.orders, eo.order.orderUid).value.id;
            st.eo.order.id == id && st.tables.orders == t.orders &&
            |st.tables.deliveries| == |t.deliveries| + 1 && |st.tables.payments| == |t.payments| + 1 &&
            AnyOf(st.tables.items, ItemOrderKey, [id]) == AnyOf(t.items, ItemOrderKey, [id]) + st.eo.items
  {
    var st := InsertExtended(t, s, eo);
    var id := OrdersRepository.FindByUid(t.orders, eo.order.orderUid).value.id;
    AnyOfConcat(t.items, st.eo.items, ItemOrderKey, [id]);
    AnyOfExtremes(st.eo.items, ItemOrderKey, [id]);
  }

  // ---------------------------------------------------------------------
  // Reading through the join

  /** `FROM orders o INNER JOIN delivery d ON o.delivery_id = d.id INNER
      JOIN payment p ON o.payment_id = p.id`, for one order; the items are
      fetched separately. */
  function Join(t: Tables, o: Order): (r: Option<ExtendedOrder>)
    ensures r.Some? <==> Lookup(t.deliveries, DeliveryKey, o.deliveryId).Some? &&
                         Lookup(t.payments, PaymentKey, o.paymentId).Some?
    ensures r.Some? ==> r.value.order == o && r.value.delivery.id == o.deliveryId &&
                        r.value.payment.id == o.paymentId && r.value.items == []
  {
    var d := Lookup(t.deliveries, DeliveryKey, o.deliveryId);
    var p := Lookup(t.payments, PaymentKey, o.paymentId);
    if d.Some? && p.Some? then Some(ExtendedOrder(o, d.value, p.value, [])) else None
  }

  /** The joined row of order `id` (`WHERE o.id = $1`). */
  function JoinById(t: Tables, id: int): Option<ExtendedOrder>
  {
    match Lookup(t.orders, OrderKey, id)
    case None => None
    case Some(o) => Join(t, o)
  }

  /** The joined rows of `orders`, in their order. */
  function JoinAll(t: Tables, orders: seq<Order>): (r: seq<ExtendedOrder>)
    ensures |r| <= |orders|
    ensures forall i :: 0 <= i < |r| ==> r[i].order in orders
  {
    if |orders| == 0 then []
    else
      var rest := JoinAll(t, orders[1..]);
      var head := Join(t, orders[0]);
      if head.Some? then [head.value] + rest else rest
  }

  /** Every row of the join is an order with its delivery and payment. */
  lemma {:induction false} JoinAllJoined(t: Tables, orders: seq<Order>, i: nat)
    requires i < |JoinAll(t, orders)|
    ensures JoinAll(t, orders)[i].items == []
    ensures Join(t, JoinAll(t, orders)[i].order) == Some(JoinAll(t, orders)[i])
  {
    var rest := JoinAll(t, orders[1..]);
    var head := Join(t, orders[0]);
    if head.Some? {
      assert JoinAll(t, orders) == [head.value] + rest;
      if i > 0 {
        JoinAllJoined(t, orders[1..], i - 1);
      }
    } else {
      JoinAllJoined(t, orders[1..], i);
    }
  }

  /** The join ordered by date_created, newest first, at most `limit` rows. */
  function LastJoined(t: Tables, limit: nat): seq<ExtendedOrder>
  {
    var all := JoinAll(t, OrdersRepository.NewestFirst(t.orders));
    if limit < |all| then all[..limit] else all
  }

  /** The join query yields 33 columns; the scans of lines 118-131 and
      193-204 give 31 destinations (no delivery region and email). */
  const JoinColumns: nat := 33
  const JoinDestinations: nat := 31

  /** GetExtendedOrder as written: a negative id is ErrInvalidID; otherwise
      a missing row is ErrNotFound, and a found row fails to scan. No call
      returns an order. */
  function GetExtendedOrder(t: Tables, id: int, fault: Option<Error>): (r: Result<ExtendedOrder>)
    ensures r.Err?
    ensures id < 0 ==> r.error == InvalidID
    ensures id >= 0 && fault.None? ==> (r.error == ErrNotFound <==> JoinById(t, id).None?)
    ensures id >= 0 && fault.None? && JoinById(t, id).Some? ==> r.error == ScanArity(JoinColumns, JoinDestinations)
  {
    if id < 0 then Err(InvalidID)
    else if fault.Some? then Err(WrapDBError(fault).value)
    else match JoinById(t, id)
      case None => Err(WrapDBError(Some(NoRows)).value)
      case Some(_) => Err(WrapDBError(Some(ScanArity(JoinColumns, JoinDestinations))).value)
  }

  /** GetExtendedOrder with every column scanned: the joined row and the
      items read from the second query of the batch. Its final error is never
      consulted, so a broken item stream yields the items read so far. */
  method GetExtendedOrderAsIntended(db: Database, id: int, fault: Option<Error>, itemsFault: Option<Error>, stream: Stream)
    returns (r: Result<ExtendedOrder>)
    ensures id < 0 ==> r == Err(InvalidID)
    ensures id >= 0 && fault.Some? ==> r == Err(WrapDBError(fault).value)
    ensures id >= 0 && fault.None? && JoinById(db.tables, id).None? ==> r == Err(ErrNotFound)
    ensures id >= 0 && fault.None? && JoinById(db.tables, id).Some? && itemsFault.Some? ==>
              r == Err(WrapDBError(itemsFault).value)
    ensures id >= 0 && fault.None? && JoinById(db.tables, id).Some? && itemsFault.None? ==>
              var all := AnyOf(db.tables.items, ItemOrderKey, [id]);
              r == Ok(JoinById(db.tables, id).value.(items := all[..Delivered(|all|, stream)]))
  {
    if id < 0 {
      return Err(InvalidID);
    }
    if fault.Some? {
      return Err(WrapDBError(fault).value);
    }
    var row := JoinById(db.tables, id);
    if row.None? {
      return Err(WrapDBError(Some(NoRows)).value);
    }
    if itemsFault.Some? {
      return Err(WrapDBError(itemsFault).value);
    }
    var items, _ := Fetch(AnyOf(db.tables.items, ItemOrderKey, [id]), stream);
    return Ok(row.value.(items := items));
  }

  /** Write then read, as intended: after a committed write of a new order
      with a complete item stream, the read returns exactly what was
      written. */
  lemma WriteThenReadAsIntended(t: Tables, s: Serials, eo: ExtendedOrder)
    requires Consistent(t, s) && OrdersRepository.UniqueUids(t.orders)
    requires OrdersRepository.FindByUid(t.orders, eo.order.orderUid).None?
    requires forall i :: 0 <= i < |t.items| ==> t.items[i].orderId < s.order
    ensures var st := InsertExtended(t, s, eo);
            var all := AnyOf(st.tables.items, ItemOrderKey, [st.eo.order.id]);
            JoinById(st.tables, st.eo.order.id).Some? &&
            JoinById(st.tables, st.eo.order.id).value.(items := all[..Delivered(|all|, Complete)]) == st.eo
  {
    CreatedIsFound(t, s, eo);
    var st := InsertExtended(t, s, eo);
    var all := AnyOf(st.tables.items, ItemOrderKey, [st.eo.order.id]);
    assert all[..|all|] == all;
  }

  /** Newest first by the order's date_created. */
  predicate NewestFirst(eos: seq<ExtendedOrder>)
  {
    forall i, j :: 0 <= i < j < |eos| ==> eos[i].order.dateCreated >= eos[j].order.dateCreated
  }

  /** The head of orders sorted newest first is at least as new as any later one. */
  lemma DescendingHead(orders: seq<Order>, x: Order)
    requires OrdersRepository.Descending(orders) && |orders| > 0 && x in orders[1..]
    ensures orders[0].dateCreated >= x.dateCreated
  {
    var k :| 0 <= k < |orders[1..]| && orders[1..][k] == x;
    assert orders[k + 1] == x;
  }

  /** A row put in front of rows sorted newest first, and no older than any of
      them, keeps them sorted. */
  lemma ConsNewestFirst(e: ExtendedOrder, rest: seq<ExtendedOrder>)
    requires NewestFirst(rest)
    requires forall j :: 0 <= j < |rest| ==> e.order.dateCreated >= rest[j].order.dateCreated
    ensures NewestFirst([e] + rest)
  {
    var r := [e] + rest;
    forall i, j | 0 <= i < j < |r|
      ensures r[i].order.dateCreated >= r[j].order.dateCreated
    {
      assert r[j] == rest[j - 1];
      if i > 0 {
        assert r[i] == rest[i - 1];
      }
    }
  }

  /** The join keeps the order of the rows it joins: from orders sorted
      newest first it yields extended orders sorted newest first. */
  lemma {:induction false} JoinAllDescending(t: Tables, orders: seq<Order>)
    requires OrdersRepository.Descending(orders)
    ensures NewestFirst(JoinAll(t, orders))
  {
    if |orders| > 0 {
      var rest := JoinAll(t, orders[1..]);
      JoinAllDescending(t, orders[1..]);
      var head := Join(t, orders[0]);
      if head.Some? {
        forall j | 0 <= j < |rest|
          ensures head.value.order.dateCreated >= rest[j].order.dateCreated
        {
          DescendingHead(orders, rest[j].order);
        }
        ConsNewestFirst(head.value, rest);
      }
    }
  }

  /** `ORDER BY o.date_created DESC LIMIT $1` over the join: at most `limit`
      rows, each a joined order, newest first. */
  lemma LastJoinedIsNewest(t: Tables, limit: nat)
    ensures var r := LastJoined(t, limit);
            |r| <= limit &&
            (forall i :: 0 <= i < |r| ==>
               r[i].items == [] && Join(t, r[i].order) == Some(r[i]) && r[i].order in t.orders) &&
            NewestFirst(r)
  {
    var sorted := OrdersRepository.NewestFirst(t.orders);
    OrdersRepository.NewestFirstSorts(t.orders);
    JoinAllDescending(t, sorted);
    var all := JoinAll(t, sorted);
    var r := LastJoined(t, limit);
    var n := if limit < |all| then limit else |all|;
    assert r == all[..n];
    forall i | 0 <= i < |r|
      ensures r[i].items == [] && Join(t, r[i].order) == Some(r[i]) && r[i].order in t.orders
    {
      assert r[i] == all[i];
      JoinAllJoined(t, sorted, i);
      assert all[i].order in multiset(t.orders);
    }
    forall i, j | 0 <= i < j < |r|
      ensures r[i].order.dateCreated >= r[j].order.dateCreated
    {
      assert r[i] == all[i] && r[j] == all[j];
    }
  }

  /** GetLastExtendedOrders as written: a negative limit is ErrNilValue and
      a zero limit the empty list. Otherwise the first joined row fails to
      scan (lines 193-204); without a row the loop ends at once, `rows.Err()`
      is not consulted, and the item query for no ids finds nothing. No call
      returns an order. */
  function GetLastExtendedOrders(t: Tables, limit: int, fault: Option<Error>, stream: Stream,
                                 itemsFault: Option<Error>): (r: Result<seq<ExtendedOrder>>)
    ensures r.Ok? ==> r.value == []
    ensures limit < 0 ==> r == Err(NilValue)
    ensures limit == 0 ==> r == Ok([])
    ensures limit > 0 && fault.Some? ==> r == Err(WrapDBError(fault).value)
    ensures limit > 0 && fault.None? && Delivered(|LastJoined(t, limit)|, stream) > 0 ==>
              r == Err(ScanArity(JoinColumns, JoinDestinations))
  {
    if limit < 0 then Err(NilValue)
    else if limit == 0 then Ok([])
    else if fault.Some? then Err(WrapDBError(fault).value)
    else if Delivered(|LastJoined(t, limit)|, stream) > 0 then
      Err(WrapDBError(Some(ScanArity(JoinColumns, JoinDestinations))).value)
    else if itemsFault.Some? then Err(WrapDBError(itemsFault).value)
    else Ok([])
  }

  /** `items[item.OrderID] = append(items[item.OrderID], item)` over a
      result set. */
  function Group(xs: seq<Item>): map<int, seq<Item>>
  {
    if |xs| == 0 then map[]
    else
      var g := Group(xs[..|xs| - 1]);
      var x := xs[|xs| - 1];
      g[x.orderId := (if x.orderId in g then g[x.orderId] else []) + [x]]
  }

  /** The group of an order id holds the items of that order, in result
      order; an order with no item has no group. */
  lemma {:induction false} GroupIsQuery(xs: seq<Item>, id: int)
    ensures (if id in Group(xs) then Group(xs)[id] else []) == AnyOf(xs, ItemOrderKey, [id])
    ensures id in Group(xs) <==> AnyOf(xs, ItemOrderKey, [id]) != []
  {
    if |xs| > 0 {
      var init := xs[..|xs| - 1];
      var x := xs[|xs| - 1];
      GroupIsQuery(init, id);
      assert xs == init + [x];
      AnyOfAppend(init, ItemOrderKey, [id], x);
    }
  }

  /** Each order with the items the grouped result holds for it. */
  function Attached(eos: seq<ExtendedOrder>, fetched: seq<Item>): (r: seq<ExtendedOrder>)
    ensures |r| == |eos|
    ensures forall j :: 0 <= j < |r| ==> r[j] == eos[j].(items := AnyOf(fetched, ItemOrderKey, [eos[j].order.id]))
  {
    seq(|eos|, j requires 0 <= j < |eos| => eos[j].(items := AnyOf(fetched, ItemOrderKey, [eos[j].order.id])))
  }

  /** The ids of the orders read. */
  function OrderIds(eos: seq<ExtendedOrder>): (ids: seq<int>)
    ensures |ids| == |eos|
  {
    seq(|eos|, j requires 0 <= j < |eos| => eos[j].order.id)
  }

  /** Lines 210-213. */
  method CollectIds(eos: seq<ExtendedOrder>) returns (ids: seq<int>)
    ensures ids == OrderIds(eos)
  {
    ids := [];
    var i := 0;
    while i < |eos|
      invariant i <= |eos| && |ids| == i
      invariant forall j :: 0 <= j < i ==> ids[j] == eos[j].order.id
    {
      ids := ids + [eos[i].order.id];
      i := i + 1;
    }
  }

  /** Lines 225-246: the items grouped by order id. */
  method GroupItems(fetched: seq<Item>) returns (groups: map<int, seq<Item>>)
    ensures groups == Group(fetched)
  {
    groups := map[];
    var i := 0;
    while i < |fetched|
      invariant i <= |fetched|
      invariant groups == Group(fetched[..i])
    {
      assert fetched[..i + 1][..i] == fetched[..i];
      var x := fetched[i];
      groups := groups[x.orderId := (if x.orderId in groups then groups[x.orderId] else []) + [x]];
      i := i + 1;
    }
    assert fetched[..|fetched|] == fetched;
  }

  /** Lines 248-252: an order with a group takes it; the others keep no
      items. */
  method AttachItems(eos: seq<ExtendedOrder>, groups: map<int, seq<Item>>, ghost fetched: seq<Item>)
    returns (out: seq<ExtendedOrder>)
    requires forall j :: 0 <= j < |eos| ==> eos[j].items == []
    requires groups == Group(fetched)
    ensures out == Attached(eos, fetched)
  {
    out := [];
    var i := 0;
    while i < |eos|
      invariant i <= |eos| && |out| == i
      invariant forall j :: 0 <= j < i ==> out[j] == Attached(eos, fetched)[j]
    {
      var eo := eos[i];
      GroupIsQuery(fetched, eo.order.id);
      if eo.order.id in groups {
        eo := eo.(items := groups[eo.order.id]);
      }
      out := out + [eo];
      i := i + 1;
    }
  }

  /** GetLastExtendedOrders with every column scanned: the newest joined
      rows, then their items fetched in one query and grouped by order.
      Neither loop consults `rows.Err()`, so a broken stream yields the rows
      read so far. */
  method GetLastExtendedOrdersAsIntended(db: Database, limit: int, fault: Option<Error>, stream: Stream,
                                         itemsFault: Option<Error>, itemsStream: Stream)
    returns (r: Result<seq<ExtendedOrder>>)
    ensures limit < 0 ==> r == Err(NilValue)
    ensures limit == 0 ==> r == Ok([])
    ensures limit > 0 && fault.Some? ==> r == Err(WrapDBError(fault).value)
    ensures limit > 0 && fault.None? && itemsFault.Some? ==> r == Err(WrapDBError(itemsFault).value)
    ensures limit > 0 && fault.None? && itemsFault.None? ==>
              var all := LastJoined(db.tables, limit);
              var eos := all[..Delivered(|all|, stream)];
              var found := AnyOf(db.tables.items, ItemOrderKey, OrderIds(eos));
              r == Ok(Attached(eos, found[..Delivered(|found|, itemsStream)]))
  {
    if limit < 0 {
      return Err(NilValue);
    }
    if limit == 0 {
      return Ok([]);
    }
    if fault.Some? {
      return Err(WrapDBError(fault).value);
    }
    LastJoinedIsNewest(db.tables, limit);
    var eos, _ := Fetch(LastJoined(db.tables, limit), stream);
    var ids := CollectIds(eos);
    if itemsFault.Some? {
      return Err(WrapDBError(itemsFault).value);
    }
    var fetched, _ := Fetch(AnyOf(db.tables.items, ItemOrderKey, ids), itemsStream);
    var groups := GroupItems(fetched);
    var out := AttachItems(eos, groups, fetched);
    return Ok(out);
  }

  /** With both result sets complete, each order returned by the batched
      read carries exactly the items stored for it, as a per-order query
      would return them. */
  lemma BatchedItemsArePerOrder(t: Tables, eos: seq<ExtendedOrder>, j: nat)
    requires j < |eos|
    ensures Attached(eos, AnyOf(t.items, ItemOrderKey, OrderIds(eos)))[j].items
            == AnyOf(t.items, ItemOrderKey, [eos[j].order.id])
  {
    var ids := OrderIds(eos);
    assert ids[j] == eos[j].order.id;
    AnyOfNarrow(t.items, ItemOrderKey, ids, eos[j].order.id);
  }
}
