/** The exchange calls the engine emits, as data: order placements and
    cancellations, in the order they are issued. */
module Orders {
  import opened Wrappers

  datatype OrderSide = Buy | Sell

  datatype OrderType = Limit | Market

  datatype TimeInForce = FillOrKill

  /** The keyword arguments of one order placement. `cancelId`, when present,
      asks the exchange to replace that order; an absent `timeInForce` leaves
      the exchange's default. */
  datatype OrderRequest = OrderRequest(
    positionId: string,
    market: string,
    side: OrderSide,
    orderType: OrderType,
    postOnly: bool,
    size: real,
    price: real,
    limitFee: real,
    timeInForce: Option<TimeInForce>,
    cancelId: Option<string>,
    expiration: real)

  datatype Action = Place(request: OrderRequest) | Cancel(orderId: string)

  /** Fee cap on resting post-only limit orders. */
  const MakerFee: real := 0.0005

  /** Fee cap on the stop-loss market exit. */
  const TakerFee: real := 0.002

  /** Every order expires an hour after it is issued. */
  const ExpirySeconds: real := 3600.0

  /** A resting maker order on `side`: LIMIT, post-only, maker fee, default time in force. */
  predicate IsPostOnlyLimit(r: OrderRequest, side: OrderSide)
  {
    && r.side == side
    && r.orderType == Limit
    && r.postOnly
    && r.limitFee == MakerFee
    && r.timeInForce.None?
  }

  /** A placement of a MARKET order. */
  predicate IsMarketPlacement(a: Action)
  {
    a.Place? && a.request.orderType == Market
  }

  /** A placement of a SELL order. */
  predicate IsSellPlacement(a: Action)
  {
    a.Place? && a.request.side == Sell
  }

  /** No two placements in `actions` are sells. */
  predicate AtMostOneSell(actions: seq<Action>)
  {
    forall i, j :: 0 <= i < |actions| && 0 <= j < |actions| && IsSellPlacement(actions[i]) && IsSellPlacement(actions[j]) ==> i == j
  }
}
