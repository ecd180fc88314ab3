/** What paper trading does to a ledger, as functions on ledger values. */
module PaperLedgers {
  import opened Models
  import Text

  const QUOTE := "USDT"
  const FEE_RATE := 0.0004
  const STARTING_BALANCE := 100000.0

  function Cost(amount: real, price: real): real { amount * price }

  /** The taker fee on a fill, at FEE_RATE. */
  function Fee(cost: real): real { cost * FEE_RATE }

  type Balances = map<string, Balance>
  type Orders = map<Id, Order>

  datatype Ledger = Ledger(balances: Balances, orders: Orders)

  /** A ledger nobody has traded on: the seeded quote balance and no orders. */
  const FRESH := Ledger(map[QUOTE := Balance(QUOTE, STARTING_BALANCE, 0.0)], map[])

  /** `BASE/QUOTE`, optionally followed by `:SETTLE`. */
  function SplitSymbol(symbol: string, defaultQuote: string): (string, string) {
    var core := Text.Before(symbol, ':');
    if '/' in core then (Text.Before(core, '/'), Text.After(core, '/')) else (core, defaultQuote)
  }

  lemma SplitPair(base: string, quote: string)
    requires ':' !in base && ':' !in quote && '/' !in base
    ensures SplitSymbol(base + ['/'] + quote, QUOTE) == (base, quote)
  {
    var symbol := base + ['/'] + quote;
    Text.IndexOfIsFirst(symbol, ':');
    assert ':' !in symbol;
    assert Text.Before(symbol, ':') == symbol;
    Text.IndexOfFirst(base, '/', quote);
    assert symbol[|base|] == '/';
    assert symbol[..|base|] == base && symbol[|base| + 1..] == quote;
  }

  /** What follows a colon is not part of the pair. */
  lemma SplitSettled(base: string, quote: string, settle: string)
    requires ':' !in base && ':' !in quote && '/' !in base
    ensures SplitSymbol(base + ['/'] + quote + [':'] + settle, QUOTE) == (base, quote)
  {
    var pair := base + ['/'] + quote;
    var symbol := pair + [':'] + settle;
    assert ':' !in pair;
    Text.IndexOfFirst(pair, ':', settle);
    assert symbol[..|pair|] == pair && Text.Before(symbol, ':') == pair;
    Text.IndexOfFirst(base, '/', quote);
    assert pair[|base|] == '/' && pair[..|base|] == base && pair[|base| + 1..] == quote;
  }

  /** A symbol without a slash is a base in the default quote. */
  lemma SplitBare(base: string)
    requires ':' !in base && '/' !in base
    ensures SplitSymbol(base, QUOTE) == (base, "USDT")
  {
    Text.IndexOfIsFirst(base, ':');
    assert Text.IndexOf(base, ':') == |base| && base[..|base|] == base;
  }

  function Bal(b: Balances, asset: string): Balance {
    if asset in b then b[asset] else Balance(asset, 0.0, 0.0)
  }

  /** Change an asset's free and used amounts, adding the asset if it is new. */
  function Shift(b: Balances, asset: string, free: real, used: real): Balances {
    var bal := Bal(b, asset);
    b[asset := Balance(asset, bal.free + free, bal.used + used)]
  }

  /** The asset and amount a resting order holds; a buy without a price holds nothing. */
  function Reservation(o: Order): (string, real) {
    var (base, quote) := SplitSymbol(o.symbol, QUOTE);
    if o.side.Buy? then
      var cost := Cost(o.amount, if o.price.Some? then o.price.value else 0.0);
      (quote, cost + Fee(cost))
    else
      (base, o.amount)
  }

  /** The price an order fills at, or None when it rests. */
  function FillPrice(r: OrderRequest, t: Ticker): Option<real> {
    if r.kind.Market? then Some(t.last)
    else if r.kind.Limit? && r.price.Some? && !r.postOnly then
      if r.side.Buy? && r.price.value >= t.last then Some(Min(r.price.value, t.last))
      else if r.side.Sell? && r.price.value <= t.last then Some(Max(r.price.value, t.last))
      else None
    else None
  }

  function NewOrder(id: Id, r: OrderRequest, t: Ticker): Order {
    match FillPrice(r, t)
    case None =>
      Order(id, r.symbol, r.side, r.kind, Open, r.amount, 0.0, r.price, None, t.timestamp,
            r.clientOrderId, 0.0, true)
    case Some(p) =>
      Order(id, r.symbol, r.side, r.kind, Filled, r.amount, r.amount, r.price, Some(p), t.timestamp,
            r.clientOrderId, Fee(Cost(r.amount, p)), true)
  }

  /** What a fill at `p` takes from the account. */
  function Paid(r: OrderRequest, p: real): (string, real) {
    var (base, quote) := SplitSymbol(r.symbol, QUOTE);
    var cost := Cost(r.amount, p);
    if r.side.Buy? then (quote, cost + Fee(cost)) else (base, r.amount)
  }

  /** What a fill at `p` brings in. */
  function Received(r: OrderRequest, p: real): (string, real) {
    var (base, quote) := SplitSymbol(r.symbol, QUOTE);
    var cost := Cost(r.amount, p);
    if r.side.Buy? then (base, r.amount) else (quote, cost - Fee(cost))
  }

  /** Placing an order: fill it, rest it against a reservation, or refuse it. */
  function Place(l: Ledger, id: Id, r: OrderRequest, t: Ticker): Result<(Ledger, Order)> {
    var o := NewOrder(id, r, t);
    var (asset, need) := if o.status.Open? then Reservation(o) else Paid(r, o.average.value);
    if Bal(l.balances, asset).free < need then Err(InsufficientBalance(asset))
    else
      var b :=
        if o.status.Open? then Shift(l.balances, asset, -need, need)
        else
          var (got, amount) := Received(r, o.average.value);
          Shift(Shift(l.balances, asset, -need, 0.0), got, amount, 0.0);
      Ok((Ledger(b, l.orders[id := o]), o))
  }

  /** Cancelling an order: only a live one gives its reservation back. */
  function Cancel(l: Ledger, id: Id): Result<(Ledger, Order)> {
    if id !in l.orders then Err(NotFound)
    else if l.orders[id].status in {Filled, Canceled} then Ok((l, l.orders[id]))
    else
      var o := l.orders[id].(status := Canceled, isPaper := true);
      var (asset, held) := Reservation(o);
      var back := Min(held, Bal(l.balances, asset).used);
      Ok((Ledger(Shift(l.balances, asset, back, -back), l.orders[id := o]), o))
  }
}
