/** What placing and cancelling do, in plain amounts. */
module PaperMoves {
  import opened Models
  import opened PaperLedgers
  import opened PaperInvariants
  import opened PaperStores
  import Risk

  /** `free` and `used` of `asset` move by these amounts, and nothing else moves. */
  ghost predicate OnlyMoves(b: Balances, b': Balances, asset: string, free: real, used: real) {
    forall a: string ::
      && Bal(b', a).free == Bal(b, a).free + (if a == asset then free else 0.0)
      && Bal(b', a).used == Bal(b, a).used + (if a == asset then used else 0.0)
  }

  /** A cost is amount times price, and the fee on it 4 basis points. */
  lemma PriceAndFee(amount: real, price: real)
    ensures Cost(amount, price) == amount * price && Cost(amount, 0.0) == 0.0
    ensures Fee(Cost(amount, price)) == Cost(amount, price) * 0.0004 && Fee(0.0) == 0.0
  {
  }

  function GrossCost(amount: real, price: real): real {
    Cost(amount, price) + Fee(Cost(amount, price))
  }

  // -- orders that rest -------------------------------------------------------

  /** A resting sell needs its amount of base free, and moves exactly that to `used`. */
  lemma RestingSell(l: Ledger, id: Id, r: OrderRequest, t: Ticker)
    requires r.side.Sell? && FillPrice(r, t).None?
    ensures var base := SplitSymbol(r.symbol, QUOTE).0;
            && (Place(l, id, r, t).Ok? <==> Bal(l.balances, base).free >= r.amount)
            && (Place(l, id, r, t).Err? ==> Place(l, id, r, t).error == InsufficientBalance(base))
            && (Place(l, id, r, t).Ok? ==>
                  OnlyMoves(l.balances, Place(l, id, r, t).value.0.balances, base, -r.amount, r.amount))
  {
    hide PaperLedgers.SplitSymbol, PaperLedgers.Cost;
  }

  /** A resting buy holds the quote that its limit price costs, with the fee; nothing without a price. */
  lemma RestingBuy(l: Ledger, id: Id, r: OrderRequest, t: Ticker)
    requires r.side.Buy? && FillPrice(r, t).None?
    ensures var quote := SplitSymbol(r.symbol, QUOTE).1;
            var held := if r.price.Some? then GrossCost(r.amount, r.price.value) else 0.0;
            && (Place(l, id, r, t).Ok? <==> Bal(l.balances, quote).free >= held)
            && (Place(l, id, r, t).Err? ==> Place(l, id, r, t).error == InsufficientBalance(quote))
            && (Place(l, id, r, t).Ok? ==>
                  OnlyMoves(l.balances, Place(l, id, r, t).value.0.balances, quote, -held, held))
  {
    PriceAndFee(r.amount, 0.0);
    hide PaperLedgers.SplitSymbol, PaperLedgers.Cost, Fee;
  }

  lemma ReservedAmount(o: Order)
    ensures var held := if o.price.Some? then GrossCost(o.amount, o.price.value) else 0.0;
            var (base, quote) := SplitSymbol(o.symbol, QUOTE);
            Reservation(o) == if o.side.Sell? then (base, o.amount) else (quote, held)
  {
    PriceAndFee(o.amount, 0.0);
    hide PaperLedgers.SplitSymbol, PaperLedgers.Cost, Fee;
  }

  lemma CancelledOrderHolds(o: Order)
    ensures Reservation(o.(status := Canceled, isPaper := true)) == Reservation(o)
  {
  }

  /** Cancelling moves those same amounts back, settles the order and changes nothing else of it. */
  lemma CancelMovesBack(l: Ledger, id: Id)
    requires Reserved(l) && id in l.orders && l.orders[id].status.Open?
    ensures var (o, (base, quote)) := (l.orders[id], SplitSymbol(l.orders[id].symbol, QUOTE));
            var held := if o.price.Some? then GrossCost(o.amount, o.price.value) else 0.0;
            && Cancel(l, id).Ok?
            && var (l', o') := Cancel(l, id).value;
            && o' == o.(status := Canceled) && l'.orders == l.orders[id := o']
            && OnlyMoves(l.balances, l'.balances, if o.side.Sell? then base else quote,
                         if o.side.Sell? then o.amount else held, if o.side.Sell? then -o.amount else -held)
  {
    ReservedAmount(l.orders[id]);
    LiveReservationCovered(l, id);
    hide PaperLedgers.SplitSymbol, PaperLedgers.Cost, Held, Reservation, GrossCost;
    CancelledOrderHolds(l.orders[id]);
  }

  /** Cancelling an order that has settled changes nothing; an unknown one is an error. */
  lemma CancelSettled(l: Ledger, id: Id)
    ensures id !in l.orders ==> Cancel(l, id) == Err(NotFound)
    ensures id in l.orders && l.orders[id].status in {Filled, Canceled} ==> Cancel(l, id) == Ok((l, l.orders[id]))
  {
  }

  // -- orders that fill -------------------------------------------------------

  /** A filled buy needs its cost with the fee in quote, and exchanges that for its amount of base. */
  lemma FilledBuy(l: Ledger, id: Id, r: OrderRequest, t: Ticker)
    requires r.side.Buy? && FillPrice(r, t).Some?
    ensures var ((base, quote), spent) := (SplitSymbol(r.symbol, QUOTE), GrossCost(r.amount, t.last));
            && (Place(l, id, r, t).Ok? <==> Bal(l.balances, quote).free >= spent)
            && (Place(l, id, r, t).Err? ==> Place(l, id, r, t).error == InsufficientBalance(quote))
            && (Place(l, id, r, t).Ok? ==>
                  forall a: string :: var (was, now) := (Bal(l.balances, a), Bal(Place(l, id, r, t).value.0.balances, a));
                    && now.used == was.used
                    && now.free == was.free - (if a == quote then spent else 0.0) + (if a == base then r.amount else 0.0))
  {
    hide PaperLedgers.SplitSymbol;
    FillsAtLast(r, t);
    hide PaperLedgers.Cost, Fee;
  }

  /** A filled sell needs its amount of base, and exchanges that for its proceeds less the fee. */
  lemma FilledSell(l: Ledger, id: Id, r: OrderRequest, t: Ticker)
    requires r.side.Sell? && FillPrice(r, t).Some?
    ensures var ((base, quote), earned) := (SplitSymbol(r.symbol, QUOTE), Cost(r.amount, t.last) - Fee(Cost(r.amount, t.last)));
            && (Place(l, id, r, t).Ok? <==> Bal(l.balances, base).free >= r.amount)
            && (Place(l, id, r, t).Err? ==> Place(l, id, r, t).error == InsufficientBalance(base))
            && (Place(l, id, r, t).Ok? ==>
                  forall a: string :: var (was, now) := (Bal(l.balances, a), Bal(Place(l, id, r, t).value.0.balances, a));
                    && now.used == was.used
                    && now.free == was.free - (if a == base then r.amount else 0.0) + (if a == quote then earned else 0.0))
  {
    hide PaperLedgers.SplitSymbol;
    FillsAtLast(r, t);
    hide PaperLedgers.Cost, Fee;
  }

  // -- what is put on record ----------------------------------------------------

  /** A placed order repeats the request; it is open with nothing filled, or filled in whole at the
      last price for a fee of 4 basis points. */
  lemma PlacedOrder(l: Ledger, id: Id, r: OrderRequest, t: Ticker)
    requires Place(l, id, r, t).Ok?
    ensures var (l', o) := Place(l, id, r, t).value;
            && l'.orders == l.orders[id := o] && o.id == id && o.timestamp == t.timestamp
            && o.clientOrderId == r.clientOrderId && o.symbol == r.symbol
            && o.side == r.side && o.kind == r.kind && o.amount == r.amount && o.price == r.price && o.isPaper
            && (FillPrice(r, t).None? ==> o.status == Open && o.filled == 0.0 && o.average == None && o.fee == 0.0)
            && (FillPrice(r, t).Some? ==>
                  && o.status == Filled && o.filled == r.amount && o.average == Some(t.last)
                  && o.fee == Fee(Cost(r.amount, t.last)))
  {
    FillsAtLast(r, t);
    hide PaperLedgers.SplitSymbol, PaperLedgers.Cost, Fee, FillPrice;
  }

  /** The record of a placement says of its order what the order says of itself. */
  lemma PlacedRecord(s: Store, recordId: Id, orderId: Id, p: Submission)
    requires PlaceRequest(s, recordId, orderId, p).1.Ok?
    ensures var (s', rec) := (PlaceRequest(s, recordId, orderId, p).0, PlaceRequest(s, recordId, orderId, p).1.value);
            && s'.records == s.records[recordId := rec] && Submit(Load(s), orderId, p).Ok?
            && var o := Submit(Load(s), orderId, p).value.1;
            && rec.exchangeOrderId == Some(o.id) && rec.clientOrderId == o.clientOrderId && rec.symbol == o.symbol
            && rec.side == o.side && rec.kind == o.kind && rec.status == o.status && rec.amount == o.amount
            && rec.filled == o.filled && rec.price == o.price && rec.average == o.average && rec.fee == o.fee
            && rec.isPaper == o.isPaper
  {
    hide PaperStores.Submit, PaperStores.Save, PaperStores.Load;
  }

  /** Exactly the open and partially filled paper records with an exchange id come back as orders,
      and each says what its record says. */
  lemma LoadedExactly(s: Store, id: Id)
    requires DistinctIds(s.records)
    ensures id in Load(s).orders <==>
      exists r :: r in s.records && s.records[r].exchangeOrderId == Some(id) && s.records[r].isPaper
                  && s.records[r].status in {Open, PartiallyFilled}
    ensures forall r | r in s.records && s.records[r].exchangeOrderId == Some(id) && id in Load(s).orders ::
      var (o, rec) := (Load(s).orders[id], s.records[r]);
      && o.id == id && o.clientOrderId == rec.clientOrderId && o.symbol == rec.symbol && o.side == rec.side
      && o.kind == rec.kind && o.status == rec.status && o.amount == rec.amount && o.filled == rec.filled
      && o.price == rec.price && o.average == rec.average && o.fee == rec.fee && o.timestamp == None && o.isPaper
  {
    if r :| r in s.records && s.records[r].exchangeOrderId == Some(id) && Restores(s.records[r]) {
      RestoredByOnly(s.records, s.records.Keys, r);
      forall r' | r' in s.records && s.records[r'].exchangeOrderId == Some(id) ensures r' == r {
        assert SameId(s.records, r', r);
      }
    }
    hide LoadBalances;
  }

  /** A cancelled record keeps everything but its status; a settled one is answered as it is, and an
      unknown one is an error. */
  lemma CancelledRecord(s: Store, recordId: Id)
    ensures var (s', r) := CancelRequest(s, recordId);
            && (recordId !in s.records ==> s' == s && r == Err(NotFound))
            && (recordId in s.records && s.records[recordId].status in {Canceled, Filled} ==>
                  s' == s && r == Ok(s.records[recordId]))
            && (recordId in s.records && s.records[recordId].status !in {Canceled, Filled} ==>
                  var rec := s.records[recordId].(status := Canceled);
                  r == Ok(rec) && s'.records == s.records[recordId := rec])
  {
    if recordId in s.records && Named(s.records[recordId]) {
      var id := s.records[recordId].exchangeOrderId.value;
      if id in Load(s).orders {
        LoadedIsLive(s, id);
      }
    }
    hide PaperLedgers.Reservation, PaperLedgers.Shift, PaperStores.Save, PaperStores.Load;
  }

  lemma LoadedIsLive(s: Store, id: Id)
    requires id in Load(s).orders
    ensures Load(s).orders[id].status in {Open, PartiallyFilled}
  {
    hide LoadBalances;
  }

  /** An account without rows starts with the seeded quote balance. */
  lemma FirstUseSeeds(a: string)
    ensures Bal(LoadBalances(map[]), a) == Balance(a, if a == "USDT" then 100000.0 else 0.0, 0.0)
  {
  }

  // -- the check before a placement -------------------------------------------------

  /** The margin limits: leverage at most 20, and half of the equity as margin. */
  predicate WithinLimits(notional: real, equity: real, leverage: real) {
    equity > 0.0 && leverage <= 20.0 && notional <= equity * leverage * 0.5
  }

  lemma CheckOrderIff(notional: real, equity: real, leverage: real)
    ensures Risk.CheckOrder(notional, equity, leverage)
            == if WithinLimits(notional, equity, leverage) then Ok(()) else Err(RiskLimit)
  {
  }

  /** What the check makes of a submission. */
  lemma CheckIff(b: Balances, p: Submission)
    ensures var total := Bal(b, SplitSymbol(p.request.symbol, QUOTE).1).Total();
            var notional := Cost(p.request.amount, if p.request.price.Some? then p.request.price.value else p.checkTicker.last);
            var leverage := if p.leverage.Some? && p.leverage.value != 0 then p.leverage.value as real else 1.0;
            Check(b, p) == if WithinLimits(notional, if total > 0.0 then total else notional * 20.0, leverage)
                           then Ok(()) else Err(RiskLimit)
  {
    var notional := Cost(p.request.amount, ReferencePrice(p));
    var equity := QuoteEquity(b, p.request.symbol);
    CheckOrderIff(notional, if equity > 0.0 then equity else notional * 20.0, Leverage(p));
    hide PaperLedgers.SplitSymbol, PaperLedgers.Cost, Risk.CheckOrder, WithinLimits;
  }

  /** A submission is accepted exactly when its leverage is at most 20, its notional fits half of
      the pair's quote total times the leverage (if there is any), and the placement succeeds. */
  lemma SubmitAcceptsIff(l: Ledger, id: Id, p: Submission)
    ensures var total := Bal(l.balances, SplitSymbol(p.request.symbol, QUOTE).1).Total();
            var notional := Cost(p.request.amount, if p.request.price.Some? then p.request.price.value else p.checkTicker.last);
            var leverage := if p.leverage.Some? && p.leverage.value != 0 then p.leverage.value as real else 1.0;
            Submit(l, id, p) == if WithinLimits(notional, if total > 0.0 then total else notional * 20.0, leverage)
                                then Place(l, id, p.request, p.fillTicker) else Err(RiskLimit)
  {
    CheckIff(l.balances, p);
    hide PaperLedgers.SplitSymbol, PaperLedgers.Place, PaperStores.Check, WithinLimits;
  }
}
