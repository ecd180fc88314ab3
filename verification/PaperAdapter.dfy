/** The paper adapter: operations that update a ledger object in place. */
module PaperAdapters {
  import opened Models
  import opened PaperLedgers

  class PaperLedger {
    var balances: Balances
    var orders: Orders

    ghost function Value(): Ledger
      reads this
    {
      Ledger(balances, orders)
    }

    /** Seeds the quote asset unless it is given. */
    constructor (balances: Balances, orders: Orders)
      ensures Value() == Ledger(if QUOTE in balances then balances else FRESH.balances + balances, orders)
    {
      this.balances := if QUOTE in balances then balances
                       else balances[QUOTE := Balance(QUOTE, STARTING_BALANCE, 0.0)];
      this.orders := orders;
      new;
      assert QUOTE !in balances ==>
        balances[QUOTE := Balance(QUOTE, STARTING_BALANCE, 0.0)] == FRESH.balances + balances;
    }
  }

  lemma {:induction false} OncePerAsset(assets: seq<string>, s: set<string>)
    requires forall i, j | 0 <= i < j < |assets| :: assets[i] != assets[j]
    requires forall a :: a in assets <==> a in s
    ensures |assets| == |s|
    decreases |assets|
  {
    if assets != [] {
      var rest := assets[1..];
      assert forall a :: a in rest <==> a in s - {assets[0]} by {
        forall a | a in assets && a != assets[0] ensures a in rest {
          var i :| 0 <= i < |assets| && assets[i] == a;
          assert rest[i - 1] == a;
        }
      }
      OncePerAsset(rest, s - {assets[0]});
    } else {
      assert s == {};
    }
  }

  class PaperAdapter {
    const ledger: PaperLedger

    constructor (ledger: PaperLedger)
      ensures this.ledger == ledger
    {
      this.ledger := ledger;
    }

    method Credit(asset: string, amount: real)
      modifies ledger`balances
      ensures ledger.balances == Shift(old(ledger.balances), asset, amount, 0.0)
    {
      var bal := Bal(ledger.balances, asset);
      ledger.balances := ledger.balances[asset := Balance(asset, bal.free + amount, bal.used)];
    }

    method Debit(asset: string, amount: real) returns (r: Result<()>)
      modifies ledger`balances
      ensures r == if Bal(old(ledger.balances), asset).free < amount then Err(InsufficientBalance(asset)) else Ok(())
      ensures ledger.balances == if r.Ok? then Shift(old(ledger.balances), asset, -amount, 0.0)
                                 else old(ledger.balances)
    {
      var bal := Bal(ledger.balances, asset);
      if bal.free < amount {
        return Err(InsufficientBalance(asset));
      }
      ledger.balances := ledger.balances[asset := Balance(asset, bal.free - amount, bal.used)];
      return Ok(());
    }

    method Reserve(asset: string, amount: real) returns (r: Result<()>)
      modifies ledger`balances
      ensures r == if Bal(old(ledger.balances), asset).free < amount then Err(InsufficientBalance(asset)) else Ok(())
      ensures ledger.balances == if r.Ok? then Shift(old(ledger.balances), asset, -amount, amount)
                                 else old(ledger.balances)
    {
      var bal := Bal(ledger.balances, asset);
      if bal.free < amount {
        return Err(InsufficientBalance(asset));
      }
      ledger.balances := ledger.balances[asset := Balance(asset, bal.free - amount, bal.used + amount)];
      return Ok(());
    }

    method Release(asset: string, amount: real)
      modifies ledger`balances
      ensures var back := Min(amount, Bal(old(ledger.balances), asset).used);
              ledger.balances == Shift(old(ledger.balances), asset, back, -back)
    {
      var bal := Bal(ledger.balances, asset);
      var released := Min(amount, bal.used);
      ledger.balances := ledger.balances[asset := Balance(asset, bal.free + released, bal.used - released)];
    }

    /** `orderId` is the fresh identifier the adapter draws. */
    method CreateOrder(request: OrderRequest, ticker: Ticker, orderId: Id) returns (r: Result<Order>)
      modifies ledger
      ensures match Place(old(ledger.Value()), orderId, request, ticker)
              case Ok((after, order)) => r == Ok(order) && ledger.Value() == after
              case Err(error) => r == Err(error) && ledger.Value() == old(ledger.Value())
    {
      hide PaperLedgers.Cost, PaperLedgers.SplitSymbol;
      var (base, quote) := SplitSymbol(request.symbol, QUOTE);
      var fillPrice := FillPrice(request, ticker);
      if fillPrice.None? {
        var resting := Order(orderId, request.symbol, request.side, request.kind, Open, request.amount, 0.0,
                             request.price, None, ticker.timestamp, request.clientOrderId, 0.0, true);
        var (asset, reserved) := Reservation(resting);
        var held := Reserve(asset, reserved);
        if held.Err? {
          return Err(held.error);
        }
        ledger.orders := ledger.orders[orderId := resting];
        return Ok(resting);
      }
      var cost := Cost(request.amount, fillPrice.value);
      var fee := Fee(cost);
      assert Paid(request, fillPrice.value).1 == if request.side.Buy? then cost + fee else request.amount;
      assert Received(request, fillPrice.value).1 == if request.side.Buy? then request.amount else cost - fee;
      if request.side.Buy? {
        var paid := Debit(quote, cost + fee);
        if paid.Err? {
          return Err(paid.error);
        }
        Credit(base, request.amount);
      } else {
        var paid := Debit(base, request.amount);
        if paid.Err? {
          return Err(paid.error);
        }
        Credit(quote, cost - fee);
      }
      var filled := Order(orderId, request.symbol, request.side, request.kind, Filled, request.amount, request.amount,
                          request.price, fillPrice, ticker.timestamp, request.clientOrderId, fee, true);
      assert filled == NewOrder(orderId, request, ticker);
      ledger.orders := ledger.orders[orderId := filled];
      return Ok(filled);
    }

    method CancelOrder(orderId: Id) returns (r: Result<Order>)
      modifies ledger
      ensures match Cancel(old(ledger.Value()), orderId)
              case Ok((after, order)) => r == Ok(order) && ledger.Value() == after
              case Err(error) => r == Err(error) && ledger.Value() == old(ledger.Value())
    {
      if orderId !in ledger.orders {
        return Err(NotFound);
      }
      var order := ledger.orders[orderId];
      if order.status in {Filled, Canceled} {
        return Ok(order);
      }
      var (asset, reserved) := Reservation(order);
      Release(asset, reserved);
      var canceled := Order(order.id, order.symbol, order.side, order.kind, Canceled, order.amount, order.filled,
                            order.price, order.average, order.timestamp, order.clientOrderId, order.fee, true);
      ledger.orders := ledger.orders[orderId := canceled];
      return Ok(canceled);
    }

    /** The balances holding anything at all, once for each of the `assets` that do. */
    method FetchBalance() returns (held: seq<Balance>, ghost assets: seq<string>)
      ensures |held| == |set a | a in ledger.balances && ledger.balances[a].Total() > 0.0|
      ensures forall b :: b in held <==> exists a | a in ledger.balances :: ledger.balances[a] == b && b.Total() > 0.0
      ensures forall i, j | 0 <= i < j < |assets| :: assets[i] != assets[j]
      ensures |held| == |assets|
      ensures forall i | 0 <= i < |held| :: assets[i] in ledger.balances && held[i] == ledger.balances[assets[i]]
      ensures forall a :: a in assets <==> a in ledger.balances && ledger.balances[a].Total() > 0.0
    {
      held, assets := [], [];
      var todo := ledger.balances.Keys;
      while todo != {}
        invariant todo <= ledger.balances.Keys && |held| == |assets|
        invariant forall i, j | 0 <= i < j < |assets| :: assets[i] != assets[j]
        invariant forall i | 0 <= i < |held| :: assets[i] in ledger.balances && held[i] == ledger.balances[assets[i]]
        invariant forall a :: a in assets <==> a in ledger.balances && a !in todo && ledger.balances[a].Total() > 0.0
      {
        var a :| a in todo;
        var b := ledger.balances[a];
        if b.Total() > 0.0 {
          held, assets := held + [b], assets + [a];
        }
        todo := todo - {a};
      }
      OncePerAsset(assets, set a | a in ledger.balances && ledger.balances[a].Total() > 0.0);
      forall a | a in ledger.balances && ledger.balances[a].Total() > 0.0 ensures ledger.balances[a] in held {
        var i :| 0 <= i < |assets| && assets[i] == a;
      }
    }
  }
}
