/** The value objects every component shares. */
module Models {

  /** Identifiers are drawn fresh and only ever compared. */
  type Id = nat

  datatype Option<+T> = None | Some(value: T)

  datatype Result<+T> = Ok(value: T) | Err(error: AppError)

  /** The application errors the modelled operations raise. */
  datatype AppError =
    | InsufficientBalance(asset: string)
    | NotFound
    | RiskLimit
    | InvalidInput
    | Authentication
    | TwoFactorRequired
    | Conflict

  function Min(x: real, y: real): real { if y < x then y else x }

  function Max(x: real, y: real): real { if y > x then y else x }

  function AtLeastOne(x: int): int { if x < 1 then 1 else x }

  datatype OrderSide = Buy | Sell

  datatype OrderType = Market | Limit | Stop | StopLimit | TakeProfit | TrailingStop

  datatype OrderStatus = Pending | Open | PartiallyFilled | Filled | Canceled | Rejected | Expired

  datatype Ticker = Ticker(last: real, timestamp: Option<int>)

  datatype Balance = Balance(asset: string, free: real, used: real) {
    function Total(): real { free + used }
  }

  datatype OrderRequest = OrderRequest(
    symbol: string, side: OrderSide, kind: OrderType, amount: real, price: Option<real>,
    postOnly: bool, clientOrderId: Option<Id>)

  datatype Order = Order(
    id: Id, symbol: string, side: OrderSide, kind: OrderType, status: OrderStatus,
    amount: real, filled: real, price: Option<real>, average: Option<real>,
    timestamp: Option<int>, clientOrderId: Option<Id>, fee: real, isPaper: bool)
}
