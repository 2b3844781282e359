/** The rows of the nine CSV tables the dashboard reads (the Olist
    e-commerce data set), as typed records. A cell that may be empty is an
    Option; a parsed timestamp is a whole number of seconds. */
module Schema {
  import opened Tables

  datatype Customer = Customer(customerId: string, uniqueId: string, zipPrefix: int, city: string, state: string)

  datatype GeoPoint = GeoPoint(zipPrefix: int, lat: real, lng: real, city: string, state: string)

  datatype Order = Order(
    orderId: string,
    customerId: string,
    status: string,
    purchase: Option<int>,
    approved: Option<int>,
    carrier: Option<int>,
    delivered: Option<int>,
    estimated: Option<int>)

  datatype OrderItem = OrderItem(
    orderId: string,
    itemSeq: int,
    productId: string,
    sellerId: string,
    shippingLimit: Option<int>,
    price: real,
    freight: real)

  datatype Payment = Payment(orderId: string, sequential: int, paymentType: string, installments: int, value: real)

  datatype Review = Review(
    reviewId: string,
    orderId: string,
    score: int,
    title: Option<string>,
    message: Option<string>,
    created: Option<int>,
    answered: Option<int>)

  /** A product and its Portuguese category name; the size and weight
      columns are read by no page and are not part of this model. */
  datatype Product = Product(productId: string, category: Option<string>)

  /** One row of the category translation table. */
  datatype CategoryName = CategoryName(name: string, english: string)

  datatype Seller = Seller(sellerId: string, zipPrefix: int, city: string, state: string)

  const SecondsPerDay: int := 86400

  /** `(delivered - purchase).dt.days`: the whole days between purchase and
      delivery, rounded down (a Timedelta's `days`); NaN when either
      timestamp is missing. */
  function DeliveryDays(o: Order): (d: Option<int>)
    ensures d.Some? <==> o.delivered.Some? && o.purchase.Some?
    ensures d.Some? ==> d.value * SecondsPerDay <= o.delivered.value - o.purchase.value < (d.value + 1) * SecondsPerDay
  {
    if o.delivered.Some? && o.purchase.Some? then
      Some((o.delivered.value - o.purchase.value) / SecondsPerDay)
    else None
  }

  /** Rounding down: a delivery one second short of a full day counts as
      zero days, one that came a second before the purchase as minus one. */
  lemma DeliveryDaysFloor(o: Order)
    requires o.purchase.Some? && o.delivered.Some?
    ensures o.delivered.value - o.purchase.value == SecondsPerDay - 1 ==> DeliveryDays(o) == Some(0)
    ensures o.delivered.value - o.purchase.value == -1 ==> DeliveryDays(o) == Some(-1)
    ensures 0 <= o.delivered.value - o.purchase.value ==> DeliveryDays(o).value >= 0
  {
  }

  // Join keys.
  function OrderCustomer(o: Order): string { o.customerId }
  function CustomerKey(c: Customer): string { c.customerId }
  function OrderKey(o: Order): string { o.orderId }
  function ReviewOrder(r: Review): string { r.orderId }
  function ItemProduct(i: OrderItem): string { i.productId }
  function ProductKey(p: Product): string { p.productId }
  function ProductCategory(p: Product): Option<string> { p.category }
  function TranslationKey(t: CategoryName): Option<string> { Some(t.name) }
  function GeoCity(g: GeoPoint): string { g.city }
}
