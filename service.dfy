/**
 * The order service (app/internal/service/service.go): it writes an order
 * with its delivery, payment and items in one transaction and caches it,
 * reads an order from the cache or else from the store, and warms the cache
 * with the most recent orders. Class Service runs over the cache as written
 * (Get appends to the eviction list, Add may index an empty one);
 * ServiceAsIntended runs over the bounded cache (Add records each new key,
 * so eviction works). The errors are those of the repositories and of the
 * transaction, returned as they come.
 */
module Service {
  import opened Wrappers
  import opened Errors
  import opened Models
  import opened Store
  import Cache
  import OrdersRepository
  import DeliveryRepository
  import PaymentRepository
  import ItemsRepository
  import ExtendedOrderRepository

  // ---------------------------------------------------------------------
  // Reading one order from the store

  /** How each statement of a read fails, if it does, and how the item
      result set ends. */
  datatype ReadFaults = ReadFaults(
    begin: Option<Error>,
    order: Option<Error>,
    items: Option<Error>,
    itemsStream: Stream,
    payment: Option<Error>,
    delivery: Option<Error>,
    commit: Option<Error>)

  const NoReadFaults := ReadFaults(None, None, None, Complete, None, None, None)

  /** What ItemsRepository.GetItems returns for one order. */
  function OrderItems(t: Tables, orderId: int, fault: Option<Error>, stream: Stream): Result<seq<Item>>
  {
    if orderId <= 0 then Err(InvalidID)
    else if fault.Some? then Err(WrapDBError(fault).value)
    else
      var all := AnyOf(t.items, ItemOrderKey, [orderId]);
      var got := all[..Delivered(|all|, stream)];
      if |got| == 0 then Err(ErrNotFound) else Ok(got)
  }

  /** Order `id` read from the store: the order, its items, its payment and
      its delivery, each through its repository and in that order; the first
      error is returned as the repository gave it. */
  function Assemble(t: Tables, id: int, f: ReadFaults): Result<ExtendedOrder>
  {
    if f.begin.Some? then Err(f.begin.value)
    else match OrdersRepository.Get(t, id, f.order)
      case Err(e) => Err(e)
      case Ok(o) =>
        match OrderItems(t, o.id, f.items, f.itemsStream)
        case Err(e) => Err(e)
        case Ok(items) =>
          match PaymentRepository.Get(t, o.paymentId, f.payment)
          case Err(e) => Err(e)
          case Ok(p) =>
            match DeliveryRepository.Get(t, o.deliveryId, f.delivery)
            case Err(e) => Err(e)
            case Ok(d) =>
              if f.commit.Some? then Err(f.commit.value) else Ok(ExtendedOrder(o, d, p, items))
  }

  /** Without failures, the store read succeeds exactly for a positive id
      whose order joins its delivery and payment and has at least one item,
      and then yields that joined row with the order's items. An order that
      exists but has no item is ErrNotFound. */
  lemma AssembleIsJoin(t: Tables, s: Serials, id: int)
    requires Consistent(t, s)
    ensures Assemble(t, id, NoReadFaults).Ok? <==>
              id > 0 && ExtendedOrderRepository.JoinById(t, id).Some? && AnyOf(t.items, ItemOrderKey, [id]) != []
    ensures Assemble(t, id, NoReadFaults).Ok? ==>
              Assemble(t, id, NoReadFaults).value ==
              ExtendedOrderRepository.JoinById(t, id).value.(items := AnyOf(t.items, ItemOrderKey, [id]))
    ensures id > 0 && Lookup(t.orders, OrderKey, id).Some? && AnyOf(t.items, ItemOrderKey, [id]) == [] ==>
              Assemble(t, id, NoReadFaults) == Err(ErrNotFound)
  {
    var all := AnyOf(t.items, ItemOrderKey, [id]);
    assert all[..|all|] == all;
    match Lookup(t.orders, OrderKey, id)
    case None =>
    case Some(o) =>
      var d := Lookup(t.deliveries, DeliveryKey, o.deliveryId);
      var p := Lookup(t.payments, PaymentKey, o.paymentId);
      if d.Some? {
        assert d.value in t.deliveries;
      }
      if p.Some? {
        assert p.value in t.payments;
      }
  }

  /** An order written with a fresh uid reads back from the store exactly
      as written, new ids included, when it has items; without items the
      read reports ErrNotFound. */
  lemma CreatedIsRead(t: Tables, s: Serials, eo: ExtendedOrder)
    requires Consistent(t, s) && OrdersRepository.UniqueUids(t.orders)
    requires OrdersRepository.FindByUid(t.orders, eo.order.orderUid).None?
    requires forall i :: 0 <= i < |t.items| ==> t.items[i].orderId < s.order
    ensures var st := ExtendedOrderRepository.InsertExtended(t, s, eo);
            Assemble(st.tables, st.eo.order.id, NoReadFaults) ==
              if |eo.items| == 0 then Err(ErrNotFound) else Ok(st.eo)
  {
    var st := ExtendedOrderRepository.InsertExtended(t, s, eo);
    ExtendedOrderRepository.CreatedIsFound(t, s, eo);
    AssembleIsJoin(st.tables, st.serials, st.eo.order.id);
    assert st.eo.order.id == s.order;
  }

  // ---------------------------------------------------------------------
  // Warming the cache with the most recent orders

  /** How each statement of the load fails, if it does, and how each result
      set ends. */
  datatype LoadFaults = LoadFaults(
    begin: Option<Error>,
    orders: Option<Error>,
    ordersStream: Stream,
    deliveries: Option<Error>,
    deliveriesStream: Stream,
    payments: Option<Error>,
    paymentsStream: Stream,
    items: Option<Error>,
    itemsStream: Stream,
    commit: Option<Error>)

  /** The error of a query whose rows are all read and whose `rows.Err()` is
      checked, as the repository reports it. */
  function QueryError(fault: Option<Error>, stream: Stream): (err: Option<Error>)
    ensures err.None? <==> fault.None? && stream.Complete?
  {
    if fault.Some? then WrapDBError(fault)
    else if stream.BrokenAfter? then WrapDBError(Some(stream.e))
    else None
  }

  /** The error of the first of the three part queries (deliveries, payments,
      items) that fails; none when all three succeed. */
  function PartsError(f: LoadFaults): (err: Option<Error>)
    ensures err.None? <==> QueryError(f.deliveries, f.deliveriesStream).None? &&
                           QueryError(f.payments, f.paymentsStream).None? &&
                           QueryError(f.items, f.itemsStream).None?
  {
    if QueryError(f.deliveries, f.deliveriesStream).Some? then QueryError(f.deliveries, f.deliveriesStream)
    else if QueryError(f.payments, f.paymentsStream).Some? then QueryError(f.payments, f.paymentsStream)
    else QueryError(f.items, f.itemsStream)
  }

  /** The orders the load caches: `ORDER BY date_created DESC LIMIT $1`. */
  function Recent(t: Tables, limit: int): seq<Order>
  {
    if limit <= 0 then [] else OrdersRepository.LastN(t.orders, limit)
  }

  /** The error the load returns once its transaction has begun: the first
      failing query's, then the commit's; none when there is no recent order. */
  function LoadError(t: Tables, limit: int, f: LoadFaults): Option<Error>
  {
    if limit <= 0 then Some(InvalidID)
    else if QueryError(f.orders, f.ordersStream).Some? then QueryError(f.orders, f.ordersStream)
    else if |Recent(t, limit)| == 0 then None
    else if PartsError(f).Some? then PartsError(f)
    else f.commit
  }

  /** Every query succeeded: the loop that fills the cache runs. */
  predicate ReachesAdd(limit: int, f: LoadFaults)
  {
    f.begin.None? && limit > 0 && QueryError(f.orders, f.ordersStream).None? &&
    PartsError(f).None?
  }

  /** The ids of some orders, in order. */
  function Ids(orders: seq<Order>): (ids: seq<int>)
    ensures |ids| == |orders|
  {
    seq(|orders|, i requires 0 <= i < |orders| => orders[i].id)
  }

  function DeliveryIds(orders: seq<Order>): (ids: seq<int>)
    ensures |ids| == |orders|
  {
    seq(|orders|, i requires 0 <= i < |orders| => orders[i].deliveryId)
  }

  function PaymentIds(orders: seq<Order>): (ids: seq<int>)
    ensures |ids| == |orders|
  {
    seq(|orders|, i requires 0 <= i < |orders| => orders[i].paymentId)
  }

  /** Every order joins its delivery and payment. */
  predicate Joinable(t: Tables, orders: seq<Order>)
  {
    forall i :: 0 <= i < |orders| ==> ExtendedOrderRepository.Join(t, orders[i]).Some?
  }

  /** The cache entry of an order: the order joined with its delivery and
      payment, with its items. */
  function Entry(t: Tables, o: Order): (int, ExtendedOrder)
    requires ExtendedOrderRepository.Join(t, o).Some?
  {
    (o.id, ExtendedOrderRepository.Join(t, o).value.(items := AnyOf(t.items, ItemOrderKey, [o.id])))
  }

  function Entries(t: Tables, orders: seq<Order>): (es: seq<(int, ExtendedOrder)>)
    requires Joinable(t, orders)
    ensures |es| == |orders|
    ensures forall i :: 0 <= i < |orders| ==> es[i] == Entry(t, orders[i])
  {
    seq(|orders|, i requires 0 <= i < |orders| && Joinable(t, orders) => Entry(t, orders[i]))
  }

  /** Lines 102-110: one Add per order, in order, with the order's delivery
      and payment taken from the maps and its items from the groups. */
  function Loaded(orders: seq<Order>, deliveries: map<int, Delivery>, payments: map<int, Payment>,
                  groups: map<int, seq<Item>>): seq<(int, ExtendedOrder)>
    requires forall i :: 0 <= i < |orders| ==> orders[i].deliveryId in deliveries && orders[i].paymentId in payments
  {
    seq(|orders|, i requires 0 <= i < |orders| && orders[i].deliveryId in deliveries && orders[i].paymentId in payments =>
      LoadedEntry(orders[i], deliveries, payments, groups))
  }

  /** The entry one order makes: its delivery and payment from the maps, its
      items from the groups (none when the order has no group). */
  function LoadedEntry(o: Order, deliveries: map<int, Delivery>, payments: map<int, Payment>,
                       groups: map<int, seq<Item>>): (int, ExtendedOrder)
    requires o.deliveryId in deliveries && o.paymentId in payments
  {
    (o.id, ExtendedOrder(o, deliveries[o.deliveryId], payments[o.paymentId], if o.id in groups then groups[o.id] else []))
  }

  /** Add, once per entry, in order. */
  function AddAll(c: Cache.Contents<int, ExtendedOrder>, capacity: int, es: seq<(int, ExtendedOrder)>)
    : (r: Cache.Contents<int, ExtendedOrder>)
    requires Cache.Bounded(c, capacity)
    ensures Cache.Bounded(r, capacity)
  {
    if |es| == 0 then c
    else
      var prev := AddAll(c, capacity, es[..|es| - 1]);
      Cache.InsertedBounded(prev, capacity, es[|es| - 1].0, es[|es| - 1].1);
      Cache.Inserted(prev, capacity, es[|es| - 1].0, es[|es| - 1].1)
  }

  /** One more entry is one more Add. */
  lemma AddAllStep(c: Cache.Contents<int, ExtendedOrder>, capacity: int, es: seq<(int, ExtendedOrder)>, i: nat)
    requires Cache.Bounded(c, capacity) && i < |es|
    ensures AddAll(c, capacity, es[..i + 1]) == Cache.Inserted(AddAll(c, capacity, es[..i]), capacity, es[i].0, es[i].1)
  {
    assert es[..i + 1][..i] == es[..i];
  }

  /** The map the entries make, a later entry overriding an earlier one. */
  function MapOf(es: seq<(int, ExtendedOrder)>): map<int, ExtendedOrder>
  {
    if |es| == 0 then map[]
    else MapOf(es[..|es| - 1])[es[|es| - 1].0 := es[|es| - 1].1]
  }

  /** Every key of the map comes from an entry. */
  lemma {:induction false} MapOfKeys(es: seq<(int, ExtendedOrder)>)
    ensures forall k :: k in MapOf(es) ==> exists i :: 0 <= i < |es| && es[i].0 == k
  {
    if |es| > 0 {
      var init := es[..|es| - 1];
      MapOfKeys(init);
      forall k | k in MapOf(es)
        ensures exists i :: 0 <= i < |es| && es[i].0 == k
      {
        if k != es[|es| - 1].0 {
          assert k in MapOf(init);
          var i :| 0 <= i < |init| && init[i].0 == k;
          assert es[i].0 == k;
        }
      }
    }
  }

  /** Over distinct keys the map holds every entry, one key each. */
  lemma {:induction false} MapOfDistinct(es: seq<(int, ExtendedOrder)>)
    requires forall i, j :: 0 <= i < j < |es| ==> es[i].0 != es[j].0
    ensures |MapOf(es)| == |es|
    ensures forall i :: 0 <= i < |es| ==> es[i].0 in MapOf(es) && MapOf(es)[es[i].0] == es[i].1
  {
    if |es| > 0 {
      var init := es[..|es| - 1];
      var x := es[|es| - 1];
      MapOfDistinct(init);
      MapOfKeys(init);
      forall i | 0 <= i < |init|
        ensures init[i].0 != x.0
      {
        assert init[i] == es[i];
      }
      forall i | 0 <= i < |es|
        ensures es[i].0 in MapOf(es) && MapOf(es)[es[i].0] == es[i].1
      {
        if i < |init| {
          assert es[i] == init[i];
        }
      }
    }
  }

  /** Warming an empty cache with no more entries than it holds, all with
      distinct keys, caches every one of them under its key. */
  lemma {:induction false} WarmUpCachesAll(capacity: int, es: seq<(int, ExtendedOrder)>)
    requires 1 <= capacity && |es| <= capacity
    requires forall i, j :: 0 <= i < j < |es| ==> es[i].0 != es[j].0
    ensures AddAll(Cache.Contents(map[], []), capacity, es).entries == MapOf(es)
    ensures forall i :: 0 <= i < |es| ==> es[i].0 in MapOf(es) && MapOf(es)[es[i].0] == es[i].1
  {
    MapOfDistinct(es);
    if |es| > 0 {
      var init := es[..|es| - 1];
      var x := es[|es| - 1];
      WarmUpCachesAll(capacity, init);
      MapOfDistinct(init);
      assert x.0 !in MapOf(init) by {
        assert x.0 in MapOf(es) && |MapOf(es)| == |MapOf(init)| + 0 + 1;
      }
    }
  }

  /** Add, once per entry, in order, with the cache as written: none when
      one of the Adds would index an empty eviction list (cache.go:30).
      Add never appends to the list, so it only ever gets shorter. */
  function AddedAll(c: Cache.Contents<int, ExtendedOrder>, capacity: int, es: seq<(int, ExtendedOrder)>)
    : (r: Option<Cache.Contents<int, ExtendedOrder>>)
    ensures r.Some? ==> |r.value.list| <= |c.list|
  {
    if |es| == 0 then Some(c)
    else
      var prev := AddedAll(c, capacity, es[..|es| - 1]);
      var x := es[|es| - 1];
      if prev.Some? && Cache.CanAdd(prev.value, capacity, x.0) then Some(Cache.Added(prev.value, capacity, x.0, x.1))
      else None
  }

  /** One more entry is one more Add, which must not panic. */
  lemma AddedAllStep(c: Cache.Contents<int, ExtendedOrder>, capacity: int, es: seq<(int, ExtendedOrder)>, i: nat)
    requires i < |es|
    ensures var prev := AddedAll(c, capacity, es[..i]);
            AddedAll(c, capacity, es[..i + 1]) ==
              if prev.Some? && Cache.CanAdd(prev.value, capacity, es[i].0)
              then Some(Cache.Added(prev.value, capacity, es[i].0, es[i].1)) else None
  {
    assert es[..i + 1][..i] == es[..i];
  }

  /** When the whole run of Adds does not panic, no prefix of it does. */
  lemma {:induction false} AddedAllPrefix(c: Cache.Contents<int, ExtendedOrder>, capacity: int,
                                          es: seq<(int, ExtendedOrder)>, i: nat)
    requires i <= |es| && AddedAll(c, capacity, es).Some?
    ensures AddedAll(c, capacity, es[..i]).Some?
  {
    if i < |es| {
      var init := es[..|es| - 1];
      AddedAllPrefix(c, capacity, init, i);
      assert init[..i] == es[..i];
    } else {
      assert es[..i] == es;
    }
  }

  /** As written, warming an empty cache with at most its capacity of
      entries, all with distinct keys, never panics, caches every entry,
      and leaves the eviction list empty. */
  lemma {:induction false} AsWrittenWarmUpLeavesListEmpty(capacity: int, es: seq<(int, ExtendedOrder)>)
    requires |es| <= capacity
    requires forall i, j :: 0 <= i < j < |es| ==> es[i].0 != es[j].0
    ensures AddedAll(Cache.Contents(map[], []), capacity, es) == Some(Cache.Contents(MapOf(es), []))
  {
    if |es| > 0 {
      var init := es[..|es| - 1];
      var x := es[|es| - 1];
      AsWrittenWarmUpLeavesListEmpty(capacity, init);
      MapOfDistinct(es);
      MapOfDistinct(init);
      assert x.0 !in MapOf(init) by {
        assert x.0 in MapOf(es) && |MapOf(es)| == |MapOf(init)| + 1;
      }
      assert |MapOf(init)| < capacity;
    }
  }

  /** With the delivery and payment queries given `deliveryIds` and
      `paymentIds`, every order's delivery and payment is in its map and
      each order is cached as its Entry. */
  predicate LoadsAs(t: Tables, orders: seq<Order>, deliveryIds: seq<int>, paymentIds: seq<int>)
  {
    var ds := Index(AnyOf(t.deliveries, DeliveryKey, deliveryIds), DeliveryKey);
    var ps := Index(AnyOf(t.payments, PaymentKey, paymentIds), PaymentKey);
    var groups := ExtendedOrderRepository.Group(AnyOf(t.items, ItemOrderKey, Ids(orders)));
    (forall i :: 0 <= i < |orders| ==> orders[i].deliveryId in ds && orders[i].paymentId in ps) &&
    Joinable(t, orders) &&
    Loaded(orders, ds, ps, groups) == Entries(t, orders)
  }

  /** The maps the three queries build are those LoadsAs speaks of: every
      order's delivery and payment is in them and the orders load as their
      entries. */
  lemma LoadedAsQueried(t: Tables, orders: seq<Order>, deliveryIds: seq<int>, paymentIds: seq<int>,
                        ds: map<int, Delivery>, ps: map<int, Payment>, groups: map<int, seq<Item>>)
    requires LoadsAs(t, orders, deliveryIds, paymentIds)
    requires ds == Index(AnyOf(t.deliveries, DeliveryKey, deliveryIds), DeliveryKey)
    requires ps == Index(AnyOf(t.payments, PaymentKey, paymentIds), PaymentKey)
    requires groups == ExtendedOrderRepository.Group(AnyOf(t.items, ItemOrderKey, Ids(orders)))
    ensures forall i :: 0 <= i < |orders| ==> orders[i].deliveryId in ds && orders[i].paymentId in ps
    ensures Joinable(t, orders) && Loaded(orders, ds, ps, groups) == Entries(t, orders)
  {
  }

  /** One order's parts, as the maps built from the three queries hold
      them, when its delivery and payment ids were queried. */
  lemma PartsFound(t: Tables, s: Serials, orders: seq<Order>, deliveryIds: seq<int>, paymentIds: seq<int>, i: nat)
    requires Consistent(t, s) && i < |orders|
    requires orders[i].deliveryId in deliveryIds && orders[i].paymentId in paymentIds
    ensures var ds := Index(AnyOf(t.deliveries, DeliveryKey, deliveryIds), DeliveryKey);
            var o := orders[i];
            (o.deliveryId in ds <==> Lookup(t.deliveries, DeliveryKey, o.deliveryId).Some?) &&
            (o.deliveryId in ds ==> ds[o.deliveryId] == Lookup(t.deliveries, DeliveryKey, o.deliveryId).value)
    ensures var ps := Index(AnyOf(t.payments, PaymentKey, paymentIds), PaymentKey);
            var o := orders[i];
            (o.paymentId in ps <==> Lookup(t.payments, PaymentKey, o.paymentId).Some?) &&
            (o.paymentId in ps ==> ps[o.paymentId] == Lookup(t.payments, PaymentKey, o.paymentId).value)
    ensures var groups := ExtendedOrderRepository.Group(AnyOf(t.items, ItemOrderKey, Ids(orders)));
            (if orders[i].id in groups then groups[orders[i].id] else []) == AnyOf(t.items, ItemOrderKey, [orders[i].id])
  {
    var o := orders[i];
    var ids := Ids(orders);
    KeyedAnyOf(t.deliveries, DeliveryKey, s.delivery, deliveryIds);
    KeyedAnyOf(t.payments, PaymentKey, s.payment, paymentIds);
    LookupAnyOf(t.deliveries, DeliveryKey, deliveryIds, o.deliveryId);
    IndexIsLookup(AnyOf(t.deliveries, DeliveryKey, deliveryIds), DeliveryKey, s.delivery, o.deliveryId);
    LookupAnyOf(t.payments, PaymentKey, paymentIds, o.paymentId);
    IndexIsLookup(AnyOf(t.payments, PaymentKey, paymentIds), PaymentKey, s.payment, o.paymentId);
    ExtendedOrderRepository.GroupIsQuery(AnyOf(t.items, ItemOrderKey, ids), o.id);
    assert ids[i] == o.id;
    AnyOfNarrow(t.items, ItemOrderKey, ids, o.id);
  }

  /** When every order's delivery and payment ids were queried, the load
      caches each joinable order as its Entry. */
  lemma {:induction false} LoadsAsWhenQueried(t: Tables, s: Serials, orders: seq<Order>,
                                               deliveryIds: seq<int>, paymentIds: seq<int>)
    requires Consistent(t, s) && Joinable(t, orders)
    requires forall i :: 0 <= i < |orders| ==> orders[i].deliveryId in deliveryIds && orders[i].paymentId in paymentIds
    ensures LoadsAs(t, orders, deliveryIds, paymentIds)
  {
    var ds := Index(AnyOf(t.deliveries, DeliveryKey, deliveryIds), DeliveryKey);
    var ps := Index(AnyOf(t.payments, PaymentKey, paymentIds), PaymentKey);
    var groups := ExtendedOrderRepository.Group(AnyOf(t.items, ItemOrderKey, Ids(orders)));
    forall i | 0 <= i < |orders|
      ensures orders[i].deliveryId in ds && orders[i].paymentId in ps
      ensures ds[orders[i].deliveryId] == Lookup(t.deliveries, DeliveryKey, orders[i].deliveryId).value
      ensures ps[orders[i].paymentId] == Lookup(t.payments, PaymentKey, orders[i].paymentId).value
      ensures (if orders[i].id in groups then groups[orders[i].id] else []) == AnyOf(t.items, ItemOrderKey, [orders[i].id])
    {
      PartsFound(t, s, orders, deliveryIds, paymentIds, i);
    }
    var loaded := Loaded(orders, ds, ps, groups);
    var entries := Entries(t, orders);
    forall i | 0 <= i < |orders|
      ensures loaded[i] == entries[i]
    {
      EntryAsLoaded(t, orders[i], ds, ps, groups);
    }
  }

  /** An order whose delivery, payment and items the maps hold as the
      store does loads as its Entry. */
  lemma EntryAsLoaded(t: Tables, o: Order, ds: map<int, Delivery>, ps: map<int, Payment>, groups: map<int, seq<Item>>)
    requires ExtendedOrderRepository.Join(t, o).Some?
    requires o.deliveryId in ds && ds[o.deliveryId] == Lookup(t.deliveries, DeliveryKey, o.deliveryId).value
    requires o.paymentId in ps && ps[o.paymentId] == Lookup(t.payments, PaymentKey, o.paymentId).value
    requires (if o.id in groups then groups[o.id] else []) == AnyOf(t.items, ItemOrderKey, [o.id])
    ensures LoadedEntry(o, ds, ps, groups) == Entry(t, o)
  {
  }

  /** As written, the load caches each recent order with its parts when the
      orders' delivery and payment ids are among their own ids, the only
      ids the delivery and payment queries are given. */
  lemma AsWrittenLoadedEntries(t: Tables, s: Serials, orders: seq<Order>)
    requires Consistent(t, s)
    requires forall i :: 0 <= i < |orders| ==>
               orders[i].deliveryId in Ids(orders) && orders[i].paymentId in Ids(orders) &&
               ExtendedOrderRepository.Join(t, orders[i]).Some?
    ensures LoadsAs(t, orders, Ids(orders), Ids(orders))
  {
    LoadsAsWhenQueried(t, s, orders, Ids(orders), Ids(orders));
  }

  /** With the delivery and payment queries given the orders' delivery and
      payment ids, every joinable order is cached with its parts. */
  lemma AsIntendedLoadedEntries(t: Tables, s: Serials, orders: seq<Order>)
    requires Consistent(t, s) && Joinable(t, orders)
    ensures LoadsAs(t, orders, DeliveryIds(orders), PaymentIds(orders))
  {
    forall i | 0 <= i < |orders|
      ensures orders[i].deliveryId in DeliveryIds(orders) && orders[i].paymentId in PaymentIds(orders)
    {
      assert DeliveryIds(orders)[i] == orders[i].deliveryId && PaymentIds(orders)[i] == orders[i].paymentId;
    }
    LoadsAsWhenQueried(t, s, orders, DeliveryIds(orders), PaymentIds(orders));
  }

  /** Warming an empty cache at startup, with a limit no larger than the
      cache, caches every recent order under its id, each joined with its
      delivery, payment and items. */
  lemma WarmUpCachesRecent(t: Tables, s: Serials, limit: int, capacity: int)
    requires Consistent(t, s) && 1 <= limit <= capacity
    requires Joinable(t, Recent(t, limit))
    ensures var recent := Recent(t, limit);
            var c := AddAll(Cache.Contents(map[], []), capacity, Entries(t, recent));
            |c.entries| == |recent| &&
            forall i :: 0 <= i < |recent| ==> recent[i].id in c.entries && c.entries[recent[i].id] == Entry(t, recent[i]).1
  {
    var recent := Recent(t, limit);
    var es := Entries(t, recent);
    OrdersRepository.LastNIsNewest(t.orders, limit);
    OrdersRepository.LastNDistinct(t.orders, s.order, limit);
    forall i, j | 0 <= i < j < |es|
      ensures es[i].0 != es[j].0
    {
      assert es[i].0 == recent[i].id && es[j].0 == recent[j].id;
    }
    WarmUpCachesAll(capacity, es);
    MapOfDistinct(es);
  }

  /** As written, the same warm-up never panics, caches every recent order
      under its id with its parts, and leaves the eviction list empty. */
  lemma WarmUpCachesRecentAsWritten(t: Tables, s: Serials, limit: int, capacity: int)
    requires Consistent(t, s) && 1 <= limit <= capacity
    requires Joinable(t, Recent(t, limit))
    ensures var recent := Recent(t, limit);
            var c := AddedAll(Cache.Contents(map[], []), capacity, Entries(t, recent));
            c.Some? && c.value.list == [] && |c.value.entries| == |recent| &&
            (forall i :: 0 <= i < |recent| ==>
               recent[i].id in c.value.entries && c.value.entries[recent[i].id] == Entry(t, recent[i]).1) &&
            forall k :: k in c.value.entries ==> exists i :: 0 <= i < |recent| && recent[i].id == k
  {
    var recent := Recent(t, limit);
    var es := Entries(t, recent);
    OrdersRepository.LastNIsNewest(t.orders, limit);
    OrdersRepository.LastNDistinct(t.orders, s.order, limit);
    forall i, j | 0 <= i < j < |es|
      ensures es[i].0 != es[j].0
    {
      assert es[i].0 == recent[i].id && es[j].0 == recent[j].id;
    }
    AsWrittenWarmUpLeavesListEmpty(capacity, es);
    MapOfDistinct(es);
    MapOfKeys(es);
  }

  /** Every recent order's id is below the next order serial. */
  lemma RecentIdsBelowSerial(t: Tables, s: Serials, limit: int)
    requires Consistent(t, s)
    ensures forall i :: 0 <= i < |Recent(t, limit)| ==> Recent(t, limit)[i].id < s.order
  {
    var recent := Recent(t, limit);
    if limit > 0 {
      OrdersRepository.LastNIsNewest(t.orders, limit);
      forall i | 0 <= i < |recent|
        ensures recent[i].id < s.order
      {
        assert recent[i] in multiset(t.orders);
        var j :| 0 <= j < |t.orders| && t.orders[j] == recent[i];
      }
    }
  }

  /** An aggregate with a new uid is stored under the next order serial. */
  lemma NewUidGetsNextId(t: Tables, s: Serials, eo: ExtendedOrder)
    requires OrdersRepository.FindByUid(t.orders, eo.order.orderUid).None?
    ensures ExtendedOrderRepository.InsertExtended(t, s, eo).eo.order.id == s.order
  {
  }

  /** As written, the startup load (its limit is the cache size, app.go:56-60)
      of a store holding at least that many orders fills the cache with an
      empty eviction list, so the next aggregate created with a new uid
      cannot be cached: Add indexes the empty list. */
  lemma AsWrittenCreateAfterFullWarmUpPanics(t: Tables, s: Serials, capacity: int, eo: ExtendedOrder)
    requires Consistent(t, s) && 1 <= capacity <= |t.orders|
    requires Joinable(t, Recent(t, capacity))
    requires OrdersRepository.FindByUid(t.orders, eo.order.orderUid).None?
    ensures var c := AddedAll(Cache.Contents(map[], []), capacity, Entries(t, Recent(t, capacity)));
            c.Some? && !Cache.CanAdd(c.value, capacity, ExtendedOrderRepository.InsertExtended(t, s, eo).eo.order.id)
  {
    var recent := Recent(t, capacity);
    WarmUpCachesRecentAsWritten(t, s, capacity, capacity);
    OrdersRepository.LastNIsNewest(t.orders, capacity);
    RecentIdsBelowSerial(t, s, capacity);
    NewUidGetsNextId(t, s, eo);
  }

  /** A store of one order, whose delivery id is 2 because one rolled-back
      write consumed delivery id 1: it is consistent, and its one order is
      recent and joins. */
  lemma SkippedDeliveryStore(o: Order, d: Delivery, p: Payment)
    requires o.id == 1 && o.deliveryId == 2 && o.paymentId == 1 && d.id == 2 && p.id == 1
    ensures var t := Tables([o], [d], [p], []);
            Consistent(t, Serials(2, 3, 2, 1)) && Recent(t, 1) == [o] && Joinable(t, [o])
  {
    assert OrdersRepository.NewestFirst([o]) == [o] by {
      assert [o][1..] == [];
    }
  }

  /** As written, the load fails on that store where the corrected one
      succeeds: the delivery query, given the order ids [1], finds no
      delivery, so the delivery map lacks the order's delivery id (a nil
      entry that the add loop dereferences); given the delivery ids [2], it
      finds the delivery. */
  lemma AsWrittenMissesDelivery(o: Order, d: Delivery, p: Payment)
    requires o.id == 1 && o.deliveryId == 2 && o.paymentId == 1 && d.id == 2 && p.id == 1
    ensures var t := Tables([o], [d], [p], []);
            Consistent(t, Serials(2, 3, 2, 1)) && Recent(t, 1) == [o] && Joinable(t, [o]) &&
            o.deliveryId !in Ids([o]) &&
            o.deliveryId !in Index(AnyOf(t.deliveries, DeliveryKey, Ids([o])), DeliveryKey) &&
            o.deliveryId in Index(AnyOf(t.deliveries, DeliveryKey, DeliveryIds([o])), DeliveryKey)
  {
    SkippedDeliveryStore(o, d, p);
    assert Ids([o]) == [1];
    assert DeliveryIds([o]) == [2];
    assert AnyOf([d], DeliveryKey, [1]) == [] by {
      AnyOfExtremes([d], DeliveryKey, [1]);
    }
    assert AnyOf([d], DeliveryKey, [2]) == [d] by {
      AnyOfExtremes([d], DeliveryKey, [2]);
    }
    assert Index([d], DeliveryKey) == map[2 := d] by {
      assert [d][..0] == [];
    }
  }

  /** Lines 70-73. */
  method CollectIds(orders: seq<Order>) returns (ids: seq<int>)
    ensures ids == Ids(orders)
  {
    ids := [];
    var i := 0;
    while i < |orders|
      invariant i <= |orders| && |ids| == i
      invariant forall j :: 0 <= j < i ==> ids[j] == orders[j].id
    {
      ids := ids + [orders[i].id];
      i := i + 1;
    }
  }

  /** The delivery ids of the orders, for the corrected delivery query. */
  method CollectDeliveryIds(orders: seq<Order>) returns (ids: seq<int>)
    ensures ids == DeliveryIds(orders)
  {
    ids := [];
    var i := 0;
    while i < |orders|
      invariant i <= |orders| && |ids| == i
      invariant forall j :: 0 <= j < i ==> ids[j] == orders[j].deliveryId
    {
      ids := ids + [orders[i].deliveryId];
      i := i + 1;
    }
  }

  /** The payment ids of the orders, for the corrected payment query. */
  method CollectPaymentIds(orders: seq<Order>) returns (ids: seq<int>)
    ensures ids == PaymentIds(orders)
  {
    ids := [];
    var i := 0;
    while i < |orders|
      invariant i <= |orders| && |ids| == i
      invariant forall j :: 0 <= j < i ==> ids[j] == orders[j].paymentId
    {
      ids := ids + [orders[i].paymentId];
      i := i + 1;
    }
  }

  /** Lines 79-82 and 88-91: each row under its own id. */
  method IndexRows<T>(rows: seq<T>, key: T -> int) returns (m: map<int, T>)
    ensures m == Index(rows, key)
  {
    m := map[];
    var i := 0;
    while i < |rows|
      invariant i <= |rows|
      invariant m == Index(rows[..i], key)
    {
      assert rows[..i + 1][..i] == rows[..i];
      m := m[key(rows[i]) := rows[i]];
      i := i + 1;
    }
    assert rows[..|rows|] == rows;
  }

  /** Lines 75-100: the deliveries, the payments and the items, each
      query's rows indexed or grouped as soon as they are read. */
  method FetchParts(db: Database, deliveryIds: seq<int>, paymentIds: seq<int>, orderIds: seq<int>, f: LoadFaults)
    returns (err: Option<Error>, deliveries: map<int, Delivery>, payments: map<int, Payment>, groups: map<int, seq<Item>>)
    requires |deliveryIds| > 0 && |paymentIds| > 0 && |orderIds| > 0
    ensures err == PartsError(f)
    ensures err.None? ==>
              deliveries == Index(AnyOf(db.tables.deliveries, DeliveryKey, deliveryIds), DeliveryKey) &&
              payments == Index(AnyOf(db.tables.payments, PaymentKey, paymentIds), PaymentKey) &&
              groups == ExtendedOrderRepository.Group(AnyOf(db.tables.items, ItemOrderKey, orderIds))
  {
    deliveries, payments, groups := map[], map[], map[];
    var ds := DeliveryRepository.GetByOrderIDs(db, deliveryIds, f.deliveries, f.deliveriesStream);
    if ds.Err? {
      return Some(ds.error), deliveries, payments, groups;
    }
    deliveries := IndexRows(ds.value, DeliveryKey);
    var ps := PaymentRepository.GetByOrderIDs(db, paymentIds, f.payments, f.paymentsStream);
    if ps.Err? {
      return Some(ps.error), deliveries, payments, groups;
    }
    payments := IndexRows(ps.value, PaymentKey);
    var its := ItemsRepository.GetByOrderIDs(db, orderIds, f.items, f.itemsStream);
    if its.Err? {
      return Some(its.error), deliveries, payments, groups;
    }
    groups := ExtendedOrderRepository.GroupItems(its.value);
    return None, deliveries, payments, groups;
  }

  // ---------------------------------------------------------------------
  // The service, as written

  class Service {
    const db: Database
    const cache: Cache.Cache<int, ExtendedOrder>

    predicate Valid()
      reads this, db
    {
      db.Valid() && OrdersRepository.UniqueUids(db.tables.orders)
    }

    /** NewService: a store and an empty cache of `orderCacheSize` entries. */
    constructor New(db: Database, orderCacheSize: int)
      requires db.Valid() && OrdersRepository.UniqueUids(db.tables.orders)
      ensures Valid() && this.db == db && fresh(cache)
      ensures cache.Snapshot() == Cache.Contents(map[], []) && cache.capacity == orderCacheSize
    {
      this.db := db;
      cache := new Cache.Cache.New(orderCacheSize);
    }

    /** CreateExtendedOrder: the write of the extended order repository,
        with the errors returned as they come; once committed, the order as
        written (with its new ids) is added to the cache, which must not
        panic (cache.go:30). A failure rolls the tables back and leaves the
        cache alone. */
    method CreateExtendedOrder(eo: ExtendedOrder, f: ExtendedOrderRepository.WriteFaults) returns (err: Option<Error>)
      requires Valid()
      requires f.begin.None? && ExtendedOrderRepository.StepError(f, |eo.items|).None? && f.commit.None? ==>
                 Cache.CanAdd(cache.Snapshot(), cache.capacity,
                              ExtendedOrderRepository.InsertExtended(db.tables, db.serials, eo).eo.order.id)
      modifies db, cache
      ensures Valid()
      ensures SerialsAdvance(old(db.serials), db.serials)
      ensures f.begin.Some? ==>
                err == f.begin && db.tables == old(db.tables) && cache.Snapshot() == old(cache.Snapshot())
      ensures f.begin.None? ==>
                var step := ExtendedOrderRepository.StepError(f, |eo.items|);
                var st := ExtendedOrderRepository.InsertExtended(old(db.tables), old(db.serials), eo);
                (step.Some? ==>
                   err == step && db.tables == old(db.tables) && cache.Snapshot() == old(cache.Snapshot())) &&
                (step.None? && f.commit.Some? ==>
                   err == f.commit && db.tables == old(db.tables) && cache.Snapshot() == old(cache.Snapshot())) &&
                (step.None? && f.commit.None? ==>
                   err.None? && db.tables == st.tables && db.serials == st.serials &&
                   cache.Snapshot() == Cache.Added(old(cache.Snapshot()), cache.capacity, st.eo.order.id, st.eo))
    {
      var tx := db.Begin(f.begin);
      if tx.Err? {
        return Some(tx.error);
      }
      var snapshot := tx.value;
      ghost var serials0 := db.serials;
      var written;
      err, written := ExtendedOrderRepository.WriteSteps(db, eo, f);
      assert cache.Snapshot() == old(cache.Snapshot());
      RollbackConsistent(snapshot, serials0, db.serials);
      if err.Some? {
        db.Rollback(snapshot);
        assert OrdersRepository.UniqueUids(db.tables.orders);
        return err;
      }
      err := db.Commit(snapshot, f.commit);
      assert OrdersRepository.UniqueUids(db.tables.orders);
      if err.Some? {
        return err;
      }
      cache.Add(written.order.id, written);
    }

    /** GetExtendedOrder: the cache lookup, which appends the id to the
        eviction list, hit or miss (cache.go:40); a cached order is returned
        as cached; otherwise the order is read from the store and not
        cached. */
    method GetExtendedOrder(id: int, f: ReadFaults) returns (r: Result<ExtendedOrder>)
      modifies cache
      ensures cache.entries == old(cache.entries) && cache.list == old(cache.list) + [id]
      ensures id in old(cache.entries) ==> r == Ok(old(cache.entries)[id])
      ensures id !in old(cache.entries) ==> r == Assemble(db.tables, id, f)
    {
      var hit := cache.Get(id);
      if hit.Some? {
        return Ok(hit.value);
      }
      var tx := db.Begin(f.begin);
      if tx.Err? {
        return Err(tx.error);
      }
      var order := OrdersRepository.Get(db.tables, id, f.order);
      if order.Err? {
        return Err(order.error);
      }
      var items := ItemsRepository.GetItems(db, order.value.id, f.items, f.itemsStream);
      if items.Err? {
        return Err(items.error);
      }
      var payment := PaymentRepository.Get(db.tables, order.value.paymentId, f.payment);
      if payment.Err? {
        return Err(payment.error);
      }
      var delivery := DeliveryRepository.Get(db.tables, order.value.deliveryId, f.delivery);
      if delivery.Err? {
        return Err(delivery.error);
      }
      if f.commit.Some? {
        return Err(f.commit.value);
      }
      return Ok(ExtendedOrder(order.value, delivery.value, payment.value, items.value));
    }

    /** Lines 102-110: Add per order, in order; none of the Adds may panic. */
    method AddLoaded(orders: seq<Order>, deliveries: map<int, Delivery>, payments: map<int, Payment>,
                     groups: map<int, seq<Item>>)
      requires forall i :: 0 <= i < |orders| ==> orders[i].deliveryId in deliveries && orders[i].paymentId in payments
      requires AddedAll(cache.Snapshot(), cache.capacity, Loaded(orders, deliveries, payments, groups)).Some?
      modifies cache
      ensures Some(cache.Snapshot()) == AddedAll(old(cache.Snapshot()), cache.capacity, Loaded(orders, deliveries, payments, groups))
    {
      ghost var es := Loaded(orders, deliveries, payments, groups);
      ghost var c0 := cache.Snapshot();
      var i := 0;
      while i < |orders|
        invariant i <= |orders|
        invariant Some(cache.Snapshot()) == AddedAll(c0, cache.capacity, es[..i])
      {
        var e := LoadedEntry(orders[i], deliveries, payments, groups);
        AddedAllStep(c0, cache.capacity, es, i);
        AddedAllPrefix(c0, cache.capacity, es, i + 1);
        cache.Add(e.0, e.1);
        i := i + 1;
      }
      assert es[..|orders|] == es;
    }

    /** Lines 75-116, once the recent orders are read: their parts are
        fetched, each order is added to the cache, and the transaction
        commits; a failure clears the cache. */
    method CacheOrders(orders: seq<Order>, deliveryIds: seq<int>, paymentIds: seq<int>, f: LoadFaults)
      returns (err: Option<Error>)
      requires |orders| > 0 && |deliveryIds| > 0 && |paymentIds| > 0
      requires PartsError(f).None? ==>
                 LoadsAs(db.tables, orders, deliveryIds, paymentIds) &&
                 AddedAll(cache.Snapshot(), cache.capacity, Entries(db.tables, orders)).Some?
      modifies cache
      ensures err == if PartsError(f).Some? then PartsError(f) else f.commit
      ensures err.Some? ==> cache.Snapshot() == Cache.Contents(map[], [])
      ensures err.None? ==>
                Joinable(db.tables, orders) &&
                Some(cache.Snapshot()) == AddedAll(old(cache.Snapshot()), cache.capacity, Entries(db.tables, orders))
    {
      var ids := CollectIds(orders);
      var deliveryMap, paymentMap, groups;
      err, deliveryMap, paymentMap, groups := FetchParts(db, deliveryIds, paymentIds, ids, f);
      if err.Some? {
        cache.Clear();
        return err;
      }
      LoadedAsQueried(db.tables, orders, deliveryIds, paymentIds, deliveryMap, paymentMap, groups);
      AddLoaded(orders, deliveryMap, paymentMap, groups);
      if f.commit.Some? {
        cache.Clear();
        return f.commit;
      }
      return None;
    }

    /** LoadRecentOrdersToCache as written: the most recent orders, then
        the deliveries and payments whose own ids are among the ORDER ids,
        then the items of those orders; each order is then added to the
        cache with the delivery and payment found under its delivery and
        payment ids, which panics when none is, or when an Add indexes an
        empty eviction list. A failure after the transaction began clears
        the cache; no recent order leaves it as it was. */
    method LoadRecentOrdersToCache(limit: int, f: LoadFaults) returns (err: Option<Error>)
      requires Valid()
      requires ReachesAdd(limit, f) ==>
                 var recent := Recent(db.tables, limit);
                 (forall i :: 0 <= i < |recent| ==>
                    recent[i].deliveryId in Ids(recent) && recent[i].paymentId in Ids(recent) &&
                    ExtendedOrderRepository.Join(db.tables, recent[i]).Some?) &&
                 AddedAll(cache.Snapshot(), cache.capacity, Entries(db.tables, recent)).Some?
      modifies cache
      ensures Valid()
      ensures f.begin.Some? ==> err == f.begin && cache.Snapshot() == old(cache.Snapshot())
      ensures f.begin.None? ==> err == LoadError(db.tables, limit, f)
      ensures f.begin.None? && err.Some? ==> cache.Snapshot() == Cache.Contents(map[], [])
      ensures f.begin.None? && err.None? ==>
                Joinable(db.tables, Recent(db.tables, limit)) &&
                Some(cache.Snapshot()) == AddedAll(old(cache.Snapshot()), cache.capacity, Entries(db.tables, Recent(db.tables, limit)))
    {
      var tx := db.Begin(f.begin);
      if tx.Err? {
        return Some(tx.error);
      }
      var orders := OrdersRepository.GetLastN(db, limit, f.orders, f.ordersStream);
      if orders.Err? {
        cache.Clear();
        return Some(orders.error);
      }
      if |orders.value| == 0 {
        return None;
      }
      var ids := CollectIds(orders.value);
      if ReachesAdd(limit, f) {
        assert orders.value == Recent(db.tables, limit);
        AsWrittenLoadedEntries(db.tables, db.serials, orders.value);
      }
      err := CacheOrders(orders.value, ids, ids, f);
    }
  }

  // ---------------------------------------------------------------------
  // The service, as intended

  /** The service over the corrected cache, with the load's delivery and
      payment queries given the orders' delivery and payment ids. */
  class ServiceAsIntended {
    const db: Database
    const cache: Cache.BoundedCache<int, ExtendedOrder>

    predicate Valid()
      reads this, db, cache
    {
      db.Valid() && OrdersRepository.UniqueUids(db.tables.orders) && cache.Valid()
    }

    /** NewService: a store and an empty cache of `orderCacheSize` entries. */
    constructor New(db: Database, orderCacheSize: int)
      requires db.Valid() && OrdersRepository.UniqueUids(db.tables.orders) && orderCacheSize >= 1
      ensures Valid() && this.db == db && fresh(cache)
      ensures cache.Snapshot() == Cache.Contents(map[], []) && cache.capacity == orderCacheSize
    {
      this.db := db;
      cache := new Cache.BoundedCache.New(orderCacheSize);
    }

    /** CreateExtendedOrder: the write of the extended order repository,
        with the errors returned as they come; once committed, the order as
        written (with its new ids) is added to the cache. A failure rolls
        the tables back and leaves the cache alone. */
    method CreateExtendedOrder(eo: ExtendedOrder, f: ExtendedOrderRepository.WriteFaults) returns (err: Option<Error>)
      requires Valid()
      modifies db, cache
      ensures Valid()
      ensures SerialsAdvance(old(db.serials), db.serials)
      ensures f.begin.Some? ==>
                err == f.begin && db.tables == old(db.tables) && cache.Snapshot() == old(cache.Snapshot())
      ensures f.begin.None? ==>
                var step := ExtendedOrderRepository.StepError(f, |eo.items|);
                var st := ExtendedOrderRepository.InsertExtended(old(db.tables), old(db.serials), eo);
                (step.Some? ==>
                   err == step && db.tables == old(db.tables) && cache.Snapshot() == old(cache.Snapshot())) &&
                (step.None? && f.commit.Some? ==>
                   err == f.commit && db.tables == old(db.tables) && cache.Snapshot() == old(cache.Snapshot())) &&
                (step.None? && f.commit.None? ==>
                   err.None? && db.tables == st.tables && db.serials == st.serials &&
                   cache.Snapshot() == Cache.Inserted(old(cache.Snapshot()), cache.capacity, st.eo.order.id, st.eo))
    {
      var tx := db.Begin(f.begin);
      if tx.Err? {
        return Some(tx.error);
      }
      var snapshot := tx.value;
      ghost var serials0 := db.serials;
      var written;
      err, written := ExtendedOrderRepository.WriteSteps(db, eo, f);
      assert cache.Valid() && cache.Snapshot() == old(cache.Snapshot());
      RollbackConsistent(snapshot, serials0, db.serials);
      if err.Some? {
        db.Rollback(snapshot);
        assert OrdersRepository.UniqueUids(db.tables.orders);
        return err;
      }
      err := db.Commit(snapshot, f.commit);
      assert OrdersRepository.UniqueUids(db.tables.orders);
      if err.Some? {
        return err;
      }
      cache.Add(written.order.id, written);
    }

    /** GetExtendedOrder: a cached order is returned as cached; otherwise
        the order is read from the store and not cached. */
    method GetExtendedOrder(id: int, f: ReadFaults) returns (r: Result<ExtendedOrder>)
      ensures id in cache.entries ==> r == Ok(cache.entries[id])
      ensures id !in cache.entries ==> r == Assemble(db.tables, id, f)
    {
      var hit := cache.Get(id);
      if hit.Some? {
        return Ok(hit.value);
      }
      var tx := db.Begin(f.begin);
      if tx.Err? {
        return Err(tx.error);
      }
      var order := OrdersRepository.Get(db.tables, id, f.order);
      if order.Err? {
        return Err(order.error);
      }
      var items := ItemsRepository.GetItems(db, order.value.id, f.items, f.itemsStream);
      if items.Err? {
        return Err(items.error);
      }
      var payment := PaymentRepository.Get(db.tables, order.value.paymentId, f.payment);
      if payment.Err? {
        return Err(payment.error);
      }
      var delivery := DeliveryRepository.Get(db.tables, order.value.deliveryId, f.delivery);
      if delivery.Err? {
        return Err(delivery.error);
      }
      if f.commit.Some? {
        return Err(f.commit.value);
      }
      return Ok(ExtendedOrder(order.value, delivery.value, payment.value, items.value));
    }

    /** Lines 102-110: Add per order, in order. */
    method AddLoaded(orders: seq<Order>, deliveries: map<int, Delivery>, payments: map<int, Payment>,
                     groups: map<int, seq<Item>>)
      requires cache.Valid()
      requires forall i :: 0 <= i < |orders| ==> orders[i].deliveryId in deliveries && orders[i].paymentId in payments
      modifies cache
      ensures cache.Valid()
      ensures cache.Snapshot() == AddAll(old(cache.Snapshot()), cache.capacity, Loaded(orders, deliveries, payments, groups))
    {
      ghost var es := Loaded(orders, deliveries, payments, groups);
      ghost var c0 := cache.Snapshot();
      var i := 0;
      while i < |orders|
        invariant i <= |orders|
        invariant cache.Valid()
        invariant cache.Snapshot() == AddAll(c0, cache.capacity, es[..i])
      {
        var e := LoadedEntry(orders[i], deliveries, payments, groups);
        AddAllStep(c0, cache.capacity, es, i);
        cache.Add(e.0, e.1);
        i := i + 1;
      }
      assert es[..|orders|] == es;
    }

    /** Lines 75-116, once the recent orders are read: their parts are
        fetched, each order is added to the cache, and the transaction
        commits; a failure clears the cache. */
    method CacheOrders(orders: seq<Order>, deliveryIds: seq<int>, paymentIds: seq<int>, f: LoadFaults)
      returns (err: Option<Error>)
      requires cache.Valid() && |orders| > 0 && |deliveryIds| > 0 && |paymentIds| > 0
      requires PartsError(f).None? ==> LoadsAs(db.tables, orders, deliveryIds, paymentIds)
      modifies cache
      ensures cache.Valid()
      ensures err == if PartsError(f).Some? then PartsError(f) else f.commit
      ensures err.Some? ==> cache.Snapshot() == Cache.Contents(map[], [])
      ensures err.None? ==>
                Joinable(db.tables, orders) &&
                cache.Snapshot() == AddAll(old(cache.Snapshot()), cache.capacity, Entries(db.tables, orders))
    {
      var ids := CollectIds(orders);
      var deliveryMap, paymentMap, groups;
      err, deliveryMap, paymentMap, groups := FetchParts(db, deliveryIds, paymentIds, ids, f);
      if err.Some? {
        cache.Clear();
        return err;
      }
      LoadedAsQueried(db.tables, orders, deliveryIds, paymentIds, deliveryMap, paymentMap, groups);
      AddLoaded(orders, deliveryMap, paymentMap, groups);
      if f.commit.Some? {
        cache.Clear();
        return f.commit;
      }
      return None;
    }

    /** LoadRecentOrdersToCache with the delivery and payment queries given
        the orders' delivery and payment ids. It panics only when an order's
        delivery or payment row is missing, which the foreign keys of the
        schema rule out. */
    method LoadRecentOrdersToCache(limit: int, f: LoadFaults) returns (err: Option<Error>)
      requires Valid()
      requires ReachesAdd(limit, f) ==> Joinable(db.tables, Recent(db.tables, limit))
      modifies cache
      ensures Valid()
      ensures f.begin.Some? ==> err == f.begin && cache.Snapshot() == old(cache.Snapshot())
      ensures f.begin.None? ==> err == LoadError(db.tables, limit, f)
      ensures f.begin.None? && err.Some? ==> cache.Snapshot() == Cache.Contents(map[], [])
      ensures f.begin.None? && err.None? ==>
                Joinable(db.tables, Recent(db.tables, limit)) &&
                cache.Snapshot() == AddAll(old(cache.Snapshot()), cache.capacity, Entries(db.tables, Recent(db.tables, limit)))
    {
      var tx := db.Begin(f.begin);
      if tx.Err? {
        return Some(tx.error);
      }
      var orders := OrdersRepository.GetLastN(db, limit, f.orders, f.ordersStream);
      if orders.Err? {
        cache.Clear();
        return Some(orders.error);
      }
      if |orders.value| == 0 {
        return None;
      }
      var deliveryIds := CollectDeliveryIds(orders.value);
      var paymentIds := CollectPaymentIds(orders.value);
      if ReachesAdd(limit, f) {
        assert orders.value == Recent(db.tables, limit);
        AsIntendedLoadedEntries(db.tables, db.serials, orders.value);
      }
      err := CacheOrders(orders.value, deliveryIds, paymentIds, f);
    }
  }
}
