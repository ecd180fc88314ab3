/** What the pre-trade check guarantees about the funds an order takes. */
module PaperRisk {
  import opened Models
  import opened PaperLedgers
  import opened PaperInvariants
  import opened PaperStores
  import Risk

  function WithFee(x: real): real { x + Fee(x) }

  /** The largest notional the check accepts. */
  function Limit(b: Balances, p: Submission): real {
    QuoteEquity(b, p.request.symbol) * Leverage(p) * Risk.MAX_POSITION_MARGIN_PCT
  }

  /** The most quote an accepted buy may take or reserve, fee included. */
  function Cap(b: Balances, p: Submission): real {
    WithFee(Limit(b, p))
  }

  lemma WithFeeGrows(x: real, y: real)
    requires x <= y
    ensures WithFee(x) <= WithFee(y) && WithFee(2.0 * x) == 2.0 * WithFee(x)
  {
  }

  /** What an accepted order takes out of the free quote. */
  ghost function Taken(l: Ledger, id: Id, p: Submission): real
    requires Submit(l, id, p).Ok?
  {
    var quote := SplitSymbol(p.request.symbol, QUOTE).1;
    Bal(l.balances, quote).free - Bal(Submit(l, id, p).value.0.balances, quote).free
  }

  /** The one kind of order whose fill can be dearer than the price it was checked at. */
  predicate CheckedTooCheap(p: Submission) {
    p.request.kind.Market? && p.fillTicker.last > ReferencePrice(p)
  }

  /** The price a buy pays when it fills, or holds funds at when it rests. */
  function BuyPrice(p: Submission): real {
    match FillPrice(p.request, p.fillTicker)
    case Some(price) => price
    case None => if p.request.price.Some? then p.request.price.value else 0.0
  }

  lemma BuyTakesAtMostCost(l: Ledger, id: Id, p: Submission)
    requires ValidRequest(p.request) && p.request.side.Buy? && Submit(l, id, p).Ok?
    ensures Taken(l, id, p) <= WithFee(Cost(p.request.amount, BuyPrice(p)))
  {
    hide PaperStores.Check, PaperLedgers.Cost, PaperLedgers.SplitSymbol;
    var (r, t) := (p.request, p.fillTicker);
    var (base, quote) := SplitSymbol(r.symbol, QUOTE);
    match FillPrice(r, t)
    case None =>
      var (asset, need) := Reservation(NewOrder(id, r, t));
      ShiftUsed(l.balances, asset, -need, need, quote);
    case Some(price) =>
      var ((asset, need), (got, amount)) := (Paid(r, price), Received(r, price));
      ShiftUsed(l.balances, asset, -need, 0.0, quote);
      ShiftUsed(Shift(l.balances, asset, -need, 0.0), got, amount, 0.0, quote);
  }

  lemma AcceptedNotional(l: Ledger, id: Id, p: Submission)
    requires QuoteEquity(l.balances, p.request.symbol) > 0.0 && Submit(l, id, p).Ok?
    ensures Cost(p.request.amount, ReferencePrice(p)) <= Limit(l.balances, p)
  {
    hide PaperLedgers.Cost, PaperLedgers.Place, PaperStores.QuoteEquity;
  }

  lemma CostScales(x: real, a: real, b: real)
    ensures x >= 0.0 && a <= b ==> Cost(x, a) <= Cost(x, b)
    ensures x > 0.0 && a < b ==> Cost(x, a) < Cost(x, b)
    ensures Cost(x, a - b) == Cost(x, a) - Cost(x, b) && Cost(x, 2.0 * a) == 2.0 * Cost(x, a)
    ensures Cost(x, 1.0) == x && Cost(x, 0.0) == 0.0
  {
  }

  lemma BuyPriceWithinReference(p: Submission)
    requires ValidRequest(p.request) && p.request.side.Buy? && !CheckedTooCheap(p)
    ensures Cost(p.request.amount, BuyPrice(p)) <= Cost(p.request.amount, ReferencePrice(p))
            || Cost(p.request.amount, BuyPrice(p)) == 0.0
  {
    CostScales(p.request.amount, BuyPrice(p), ReferencePrice(p));
    assert BuyPrice(p) <= ReferencePrice(p) || BuyPrice(p) == 0.0;
    hide PaperLedgers.Cost;
  }

  /** What the order schema accepts as leverage. */
  predicate ValidLeverage(p: Submission) {
    p.leverage.Some? ==> p.leverage.value >= 1
  }

  lemma LimitCoversHalf(b: Balances, p: Submission)
    requires ValidLeverage(p) && QuoteEquity(b, p.request.symbol) > 0.0
    ensures 2.0 * Limit(b, p) >= QuoteEquity(b, p.request.symbol)
  {
    var (equity, leverage) := (QuoteEquity(b, p.request.symbol), Leverage(p));
    assert leverage >= 1.0;
    assert equity * leverage >= equity;
    hide PaperStores.QuoteEquity, Leverage;
  }

  /** Whether it fills or rests, and whatever tickers the check and the fill saw, an accepted
      buy takes no more than the cap, unless it is a market order checked too cheaply. */
  lemma AcceptedBuyWithinCap(l: Ledger, id: Id, p: Submission)
    requires ValidRequest(p.request) && ValidLeverage(p) && p.request.side.Buy?
    requires QuoteEquity(l.balances, p.request.symbol) > 0.0 && Submit(l, id, p).Ok?
    requires !CheckedTooCheap(p)
    ensures Taken(l, id, p) <= Cap(l.balances, p)
  {
    hide PaperStores.Submit, PaperStores.QuoteEquity, Taken, PaperStores.ReferencePrice, BuyPrice, PaperLedgers.Cost,
         Limit, WithFee;
    LimitCoversHalf(l.balances, p);
    BuyTakesAtMostCost(l, id, p);
    AcceptedNotional(l, id, p);
    BuyPriceWithinReference(p);
    WithFeeGrows(Cost(p.request.amount, BuyPrice(p)), Limit(l.balances, p));
  }

  // -- exactly when a market buy can exceed the cap -------------------------

  /** What a bought unit gives back in the asset that pays for it. */
  function GivenBack(symbol: string): real {
    var (base, quote) := SplitSymbol(symbol, QUOTE);
    if base == quote then 1.0 else 0.0
  }

  /** At these prices a unit takes more than it was checked for, and more than half of the
      funds it needs. When base and quote differ this says that the fill, above zero, is dearer. */
  predicate Exceedable(symbol: string, checked: real, filled: real) {
    var takes := WithFee(filled) - GivenBack(symbol);
    takes > WithFee(checked) && 2.0 * takes > WithFee(WithFee(filled))
  }

  lemma ExceedableBetweenAssets(symbol: string, checked: real, filled: real)
    requires GivenBack(symbol) == 0.0
    ensures Exceedable(symbol, checked, filled) <==> filled > checked && filled > 0.0
  {
  }

  predicate MarketBuy(p: Submission, symbol: string, own: Option<real>, check: Ticker, fill: Ticker) {
    && ValidRequest(p.request) && ValidLeverage(p) && p.request.kind.Market? && p.request.side.Buy?
    && p.request.symbol == symbol && p.request.price == own && p.checkTicker == check && p.fillTicker == fill
  }

  ghost predicate Exceeds(l: Ledger, id: Id, p: Submission) {
    && Backed(l) && QuoteEquity(l.balances, p.request.symbol) > 0.0
    && Submit(l, id, p).Ok? && Taken(l, id, p) > Cap(l.balances, p)
  }

  lemma CostWithFee(x: real, a: real)
    ensures Cost(x, WithFee(a)) == WithFee(Cost(x, a))
  {
  }

  /** What a market buy needs free, and what it takes in the end. */
  lemma MarketBuyTakes(l: Ledger, id: Id, p: Submission)
    requires p.request.kind.Market? && p.request.side.Buy?
    ensures var (r, price) := (p.request, p.fillTicker.last);
            var free := Bal(l.balances, SplitSymbol(r.symbol, QUOTE).1).free;
            && (Submit(l, id, p).Ok? <==> Check(l.balances, p).Ok? && free >= Cost(r.amount, WithFee(price)))
            && (Submit(l, id, p).Ok? ==> Taken(l, id, p) == Cost(r.amount, WithFee(price) - GivenBack(r.symbol)))
  {
    var (r, price) := (p.request, p.fillTicker.last);
    CostWithFee(r.amount, price);
    CostScales(r.amount, WithFee(price), GivenBack(r.symbol));
    hide PaperStores.Check, PaperLedgers.Cost, PaperLedgers.SplitSymbol;
    if Submit(l, id, p).Ok? {
      PlaceFrees(l, id, r, p.fillTicker, SplitSymbol(r.symbol, QUOTE).1);
    }
  }

  lemma UsedNonNegative(l: Ledger, a: string)
    requires Reserved(l)
    ensures Bal(l.balances, a).used >= 0.0
  {
    forall id | id in l.orders ensures Share(a)(l.orders[id]) >= 0.0 {
      ReservationNonNegative(l.orders[id]);
    }
    SumNonNegative(l.orders, Share(a));
    assert Bal(l.balances, a).used == Held(l.orders, a);
  }

  /** An account's free quote is at most twice what its margin cap allows to be bought. */
  lemma FreeWithinTwiceLimit(l: Ledger, p: Submission)
    requires Reserved(l) && ValidLeverage(p) && QuoteEquity(l.balances, p.request.symbol) > 0.0
    ensures Bal(l.balances, SplitSymbol(p.request.symbol, QUOTE).1).free <= 2.0 * Limit(l.balances, p)
  {
    UsedNonNegative(l, SplitSymbol(p.request.symbol, QUOTE).1);
    LimitCoversHalf(l.balances, p);
    hide PaperLedgers.SplitSymbol, Limit;
  }

  lemma BothMargins(x: real, checked: real, gross: real, takes: real, limit: real)
    requires x > 0.0 && Cost(x, checked) <= limit && Cost(x, gross) <= 2.0 * limit && Cost(x, takes) > WithFee(limit)
    ensures takes > WithFee(checked) && 2.0 * takes > WithFee(gross)
  {
    CostWithFee(x, checked);
    CostWithFee(x, gross);
    CostScales(x, takes, WithFee(checked));
    CostScales(x, 2.0 * takes, WithFee(gross));
    CostScales(x, takes, 0.0);
    WithFeeGrows(Cost(x, checked), limit);
    WithFeeGrows(Cost(x, gross), 2.0 * limit);
    WithFeeGrows(limit, limit);
    hide PaperLedgers.Cost, WithFee;
  }

  lemma ExceedingIsExceedable(l: Ledger, id: Id, p: Submission, symbol: string, own: Option<real>, check: Ticker, fill: Ticker)
    requires MarketBuy(p, symbol, own, check, fill) && Exceeds(l, id, p)
    ensures Exceedable(symbol, ReferencePrice(p), fill.last)
  {
    var (x, checked, gross) := (p.request.amount, ReferencePrice(p), WithFee(fill.last));
    AcceptedNotional(l, id, p);
    MarketBuyTakes(l, id, p);
    FreeWithinTwiceLimit(l, p);
    hide PaperLedgers.Cost, PaperStores.Submit, PaperStores.QuoteEquity, Taken, PaperLedgers.SplitSymbol, Limit, WithFee,
         GivenBack, Backed, PaperStores.ReferencePrice;
    BothMargins(x, checked, gross, gross - GivenBack(symbol), Limit(l.balances, p));
  }

  /** An amount whose checked cost is at most 50, needs at most 100 and takes more than 50 with fee. */
  function ExceedingAmount(checked: real, filled: real): real
    requires WithFee(filled) > 0.0
  {
    if 2.0 * checked <= WithFee(filled) then 100.0 / WithFee(filled) else 50.0 / checked
  }

  lemma AllFundsExceed(x: real, checked: real, gross: real, takes: real)
    requires x > 0.0 && Cost(x, gross) == 100.0 && 2.0 * checked <= gross && 2.0 * takes > WithFee(gross)
    ensures Cost(x, checked) <= 50.0 && Cost(x, takes) > WithFee(50.0)
  {
    CostScales(x, 2.0 * checked, gross);
    CostScales(x, checked, 0.0);
    CostWithFee(x, gross);
    CostScales(x, WithFee(gross), 2.0 * takes);
    CostScales(x, takes, 0.0);
    WithFeeGrows(50.0, 50.0);
    hide PaperLedgers.Cost, WithFee;
  }

  lemma WholeLimitExceeds(x: real, checked: real, gross: real, takes: real)
    requires x > 0.0 && Cost(x, checked) == 50.0 && 2.0 * checked > gross && takes > WithFee(checked)
    ensures Cost(x, gross) <= 100.0 && Cost(x, takes) > WithFee(50.0)
  {
    CostScales(x, gross, 2.0 * checked);
    CostScales(x, checked, 0.0);
    CostWithFee(x, checked);
    CostScales(x, WithFee(checked), takes);
    hide PaperLedgers.Cost, WithFee;
  }

  lemma ExceedableNeedsFunds(symbol: string, checked: real, filled: real)
    requires Exceedable(symbol, checked, filled)
    ensures WithFee(filled) > 0.0
  {
  }

  lemma ExceedingAmountCost(checked: real, filled: real)
    requires WithFee(filled) > 0.0
    ensures var x := ExceedingAmount(checked, filled);
            x > 0.0 && if 2.0 * checked <= WithFee(filled) then Cost(x, WithFee(filled)) == 100.0 else Cost(x, checked) == 50.0
  {
    hide WithFee;
  }

  lemma ExceedingAmountFits(symbol: string, checked: real, filled: real)
    requires Exceedable(symbol, checked, filled)
    ensures WithFee(filled) > 0.0
    ensures var x := ExceedingAmount(checked, filled);
            && x > 0.0 && Cost(x, checked) <= 50.0 && Cost(x, WithFee(filled)) <= 100.0
            && Cost(x, WithFee(filled) - GivenBack(symbol)) > WithFee(50.0)
  {
    ExceedableNeedsFunds(symbol, checked, filled);
    ExceedingAmountCost(checked, filled);
    var (x, gross) := (ExceedingAmount(checked, filled), WithFee(filled));
    var takes := gross - GivenBack(symbol);
    hide PaperLedgers.Cost, ExceedingAmount, GivenBack, WithFee;
    if 2.0 * checked <= gross {
      AllFundsExceed(x, checked, gross, takes);
    } else {
      WholeLimitExceeds(x, checked, gross, takes);
    }
  }

  lemma ExceedableIsExceeded(symbol: string, own: Option<real>, check: Ticker, fill: Ticker)
    returns (l: Ledger, p: Submission)
    requires own.Some? ==> own.value > 0.0
    requires Exceedable(symbol, if own.Some? then own.value else check.last, fill.last)
    ensures MarketBuy(p, symbol, own, check, fill) && Exceeds(l, 0, p)
  {
    var ref := if own.Some? then own.value else check.last;
    var quote := SplitSymbol(symbol, QUOTE).1;
    ExceedingAmountFits(symbol, ref, fill.last);
    var x := ExceedingAmount(ref, fill.last);
    l := Ledger(map[quote := Balance(quote, 100.0, 0.0)], map[]);
    p := Submission(OrderRequest(symbol, Buy, Market, x, own, false, None), None, check, fill);
    MarketBuyTakes(l, 0, p);
    hide PaperLedgers.Cost, PaperLedgers.SplitSymbol, ExceedingAmount, PaperStores.Submit, Taken;
    assert QuoteEquity(l.balances, symbol) == 100.0;
    assert Check(l.balances, p).Ok?;
    assert Cap(l.balances, p) == WithFee(50.0);
  }

  /** Some account can exceed the cap with a market buy, checked at its own price or at a ticker
      and filled at another, exactly at the exceedable prices. */
  lemma CapExceededIff(symbol: string, own: Option<real>, check: Ticker, fill: Ticker)
    requires own.Some? ==> own.value > 0.0
    ensures (exists l, id, p :: MarketBuy(p, symbol, own, check, fill) && Exceeds(l, id, p))
            <==> Exceedable(symbol, if own.Some? then own.value else check.last, fill.last)
  {
    hide Exceeds, Exceedable;
    if Exceedable(symbol, if own.Some? then own.value else check.last, fill.last) {
      var l, p := ExceedableIsExceeded(symbol, own, check, fill);
    }
    forall l, id, p | MarketBuy(p, symbol, own, check, fill) && Exceeds(l, id, p)
      ensures Exceedable(symbol, if own.Some? then own.value else check.last, fill.last)
    {
      ExceedingIsExceedable(l, id, p, symbol, own, check, fill);
    }
  }
}
