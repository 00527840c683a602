/**
 * The records of app/internal/models/models.go. Timestamps are Unix
 * nanoseconds; float64/float32 amounts are reals (no arithmetic is done on
 * them).
 */
module Models {

  type Timestamp = int

  datatype Order = Order(
    id: int,
    orderUid: string,
    trackNumber: string,
    entry: string,
    deliveryId: int,
    paymentId: int,
    locale: string,
    internalSignature: string,
    customerId: string,
    deliveryService: string,
    shardKey: string,
    smId: int,
    dateCreated: Timestamp,
    oofShard: string)

  datatype Delivery = Delivery(
    id: int,
    name: string,
    phone: string,
    zip: string,
    city: string,
    address: string,
    region: string,
    email: string)

  datatype Payment = Payment(
    id: int,
    transaction: string,
    requestId: string,
    currency: string,
    provider: string,
    amount: real,
    paymentDate: Timestamp,
    bank: string,
    deliveryCost: real,
    goodsTotal: real,
    customFee: real)

  datatype Item = Item(
    id: int,
    orderId: int,
    chrtId: int,
    trackNumber: string,
    price: real,
    rid: string,
    name: string,
    sale: int,
    size: string,
    totalPrice: real,
    nmId: int,
    brand: string,
    status: int)

  /** An order with its delivery, payment and items (the Order is embedded). */
  datatype ExtendedOrder = ExtendedOrder(order: Order, delivery: Delivery, payment: Payment, items: seq<Item>)

  /** The primary keys, and the foreign key of an item. */
  function OrderKey(o: Order): int { o.id }
  function DeliveryKey(d: Delivery): int { d.id }
  function PaymentKey(p: Payment): int { p.id }
  function ItemKey(i: Item): int { i.id }
  function ItemOrderKey(i: Item): int { i.orderId }
}
