/** Value types shared by the order-book cache: assets, prices, orders,
    books, the events of the market feed and the notifications sent to
    a book's listener. */
module MarketTypes {

  /** Asset and order identifiers are object-id strings such as "1.3.0". */
  type AssetId = string
  type OrderId = string
  type UserId = string

  /** A strictly positive integer amount. */
  type PosInt = n: int | n > 0 witness 1

  datatype Option<T> = None | Some(value: T)

  datatype Result<T, E> = Success(value: T) | Failure(error: E) {
    predicate IsFailure() { Failure? }
    function PropagateFailure<U>(): Result<U, E>
      requires Failure?
    {
      Failure(error)
    }
    function Extract(): T
      requires Success?
    {
      value
    }
  }

  /** An amount of one asset (`{asset_id, amount}`). */
  datatype AssetAmount = AssetAmount(assetId: AssetId, amount: int)

  /** `sell_price`: `base.amount` of `base.asset_id` offered for
      `quote.amount` of `quote.asset_id`. The quote amount of a price is
      positive, so the rate base/quote is always defined. */
  datatype Price = Price(baseAsset: AssetId, baseAmount: int, quoteAsset: AssetId, quoteAmount: PosInt)

  /** A limit order: its id, its price and what remains unfilled. */
  datatype Order = Order(id: OrderId, sellPrice: Price, forSale: int)

  /** The payload of a fill operation (`op[1]` of a fill notification). */
  datatype Fill = Fill(orderId: OrderId, pays: AssetAmount, receives: AssetAmount)

  /** Who is notified when a book changes. `Noop` is the empty callback
      that a freshly created book carries until a subscriber installs its own. */
  datatype Listener = Noop | Registered(id: nat)

  /** One cached market: the buy and sell lists in arrival order and the callback. */
  datatype Book = Book(buy: seq<Order>, sell: seq<Order>, callback: Listener)

  const EmptyBook: Book := Book([], [], Noop)

  datatype Side = Buy | Sell

  /** Where an order of a traded pair belongs: which book and which list. */
  datatype Slot = Slot(asset: AssetId, side: Side)

  /** The argument a book's callback receives: 'ADD ORDER', 'DELETE ORDER',
      'FILL ORDER', or nothing at all (`Initial`, when a snapshot is installed). */
  datatype Label = Initial | AddOrder | DeleteOrder | FillOrder

  /** One invocation of a book's callback. */
  datatype Notification = Notification(asset: AssetId, listener: Listener, note: Label)

  /** An event of the market feed: 'newOrder', 'deleteOrder', 'fillOrder'
      or any other kind, which is ignored. */
  datatype Event =
    | NewOrderEvent(order: Order)
    | DeleteOrderEvent(orderId: OrderId)
    | FillOrderEvent(fill: Fill)
    | OtherEvent(kind: string)

  function SideList(b: Book, s: Side): seq<Order>
  {
    match s
    case Buy => b.buy
    case Sell => b.sell
  }

  function WithSide(b: Book, s: Side, l: seq<Order>): (r: Book)
    ensures SideList(r, s) == l && r.callback == b.callback
    ensures s == Buy ==> r.sell == b.sell
    ensures s == Sell ==> r.buy == b.buy
    ensures l == SideList(b, s) ==> r == b
  {
    match s
    case Buy => b.(buy := l)
    case Sell => b.(sell := l)
  }
}
