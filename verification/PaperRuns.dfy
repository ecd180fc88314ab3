/** Properties of whole sequences of paper operations. */
module PaperRuns {
  import opened Models
  import opened PaperLedgers
  import opened PaperInvariants
  import Risk

  datatype Operation =
    | PlaceOp(id: Id, request: OrderRequest, ticker: Ticker)
    | CancelOp(id: Id)

  /** A refused operation leaves the ledger as it was. */
  function Apply(l: Ledger, op: Operation): Ledger {
    var outcome := match op
      case PlaceOp(id, r, t) => Place(l, id, r, t)
      case CancelOp(id) => Cancel(l, id);
    if outcome.Ok? then outcome.value.0 else l
  }

  function Run(l: Ledger, ops: seq<Operation>): Ledger
    decreases |ops|
  {
    if ops == [] then l else Run(Apply(l, ops[0]), ops[1..])
  }

  /** Orders pass the schema and order ids are fresh; prices may be anything. */
  predicate Admissible(l: Ledger, op: Operation) {
    op.PlaceOp? ==> ValidRequest(op.request) && op.id !in l.orders
  }

  predicate AdmissibleRun(l: Ledger, ops: seq<Operation>)
    decreases |ops|
  {
    ops != [] ==> Admissible(l, ops[0]) && AdmissibleRun(Apply(l, ops[0]), ops[1..])
  }

  lemma ApplyKeepsReserved(l: Ledger, op: Operation)
    requires Reserved(l) && Admissible(l, op)
    ensures Reserved(Apply(l, op))
  {
    match op
    case PlaceOp(id, r, t) => PlaceKeepsReserved(l, id, r, t);
    case CancelOp(id) => CancelKeepsReserved(l, id);
  }

  /** In every reachable ledger what is used is what the live orders reserve. */
  lemma {:induction false} RunKeepsReserved(l: Ledger, ops: seq<Operation>)
    requires Reserved(l) && AdmissibleRun(l, ops)
    ensures Reserved(Run(l, ops))
    decreases |ops|
  {
    if ops != [] {
      ApplyKeepsReserved(l, ops[0]);
      RunKeepsReserved(Apply(l, ops[0]), ops[1..]);
    }
  }

  /** An accepted placement whose negative proceeds are not covered. */
  predicate OverdrawingOp(l: Ledger, op: Operation) {
    op.PlaceOp? && Place(l, op.id, op.request, op.ticker).Ok? && Overdraws(l.balances, op.request, op.ticker)
  }

  predicate NeverOverdraws(l: Ledger, ops: seq<Operation>)
    decreases |ops|
  {
    ops != [] ==> !OverdrawingOp(l, ops[0]) && NeverOverdraws(Apply(l, ops[0]), ops[1..])
  }

  /** The ledger is backed before and after every operation of the run. */
  ghost predicate BackedThroughout(l: Ledger, ops: seq<Operation>)
    decreases |ops|
  {
    Backed(l) && (ops != [] ==> BackedThroughout(Apply(l, ops[0]), ops[1..]))
  }

  lemma ApplyBackedIff(l: Ledger, op: Operation)
    requires Backed(l) && Admissible(l, op)
    ensures Backed(Apply(l, op)) <==> !OverdrawingOp(l, op)
  {
    hide PaperLedgers.Place, PaperLedgers.Cancel, Backed, Overdraws;
    match op
    case PlaceOp(id, r, t) =>
      if Place(l, id, r, t).Ok? {
        PlaceBackedIff(l, id, r, t);
      }
    case CancelOp(id) => CancelKeepsBacked(l, id);
  }

  /** A run stays backed throughout exactly when no operation overdraws. */
  lemma {:induction false} RunBackedIff(l: Ledger, ops: seq<Operation>)
    requires Backed(l) && AdmissibleRun(l, ops)
    ensures BackedThroughout(l, ops) <==> NeverOverdraws(l, ops)
    decreases |ops|
  {
    hide Backed, OverdrawingOp, Apply;
    if ops != [] {
      ApplyBackedIff(l, ops[0]);
      if Backed(Apply(l, ops[0])) {
        RunBackedIff(Apply(l, ops[0]), ops[1..]);
      }
    }
  }

  predicate PricesNotNegative(ops: seq<Operation>) {
    forall op | op in ops && op.PlaceOp? :: op.ticker.last >= 0.0
  }

  lemma {:induction false} RunKeepsBacked(l: Ledger, ops: seq<Operation>)
    requires Backed(l) && AdmissibleRun(l, ops) && PricesNotNegative(ops)
    ensures BackedThroughout(l, ops) && Backed(Run(l, ops))
    decreases |ops|
  {
    hide Apply, Reserved;
    if ops != [] {
      assert ops[0] in ops;
      if OverdrawingOp(l, ops[0]) {
        OverdrawsOnlyBelowZero(l, ops[0].id, ops[0].request, ops[0].ticker);
      }
      ApplyBackedIff(l, ops[0]);
      RunKeepsBacked(Apply(l, ops[0]), ops[1..]);
    }
  }

  /** From first use on, whatever is placed and cancelled at whatever price. */
  lemma FreshRunReserved(ops: seq<Operation>)
    requires AdmissibleRun(FRESH, ops)
    ensures Reserved(Run(FRESH, ops))
    ensures BackedThroughout(FRESH, ops) <==> NeverOverdraws(FRESH, ops)
  {
    FreshBacked();
    RunKeepsReserved(FRESH, ops);
    RunBackedIff(FRESH, ops);
  }

  /** An order nobody cancels stays exactly as it was placed. */
  lemma {:induction false} UncancelledOrderStays(l: Ledger, ops: seq<Operation>, id: Id)
    requires id in l.orders && AdmissibleRun(l, ops) && CancelOp(id) !in ops
    ensures id in Run(l, ops).orders && Run(l, ops).orders[id] == l.orders[id]
    decreases |ops|
  {
    if ops != [] {
      assert ops[0] in ops;
      UncancelledOrderStays(Apply(l, ops[0]), ops[1..], id);
    }
  }

  /** Whatever happened in between, cancelling a rested order moves back exactly
      what resting it moved. */
  lemma RestThenCancelRestores(l: Ledger, id: Id, r: OrderRequest, t: Ticker, ops: seq<Operation>, a: string)
    requires Reserved(l) && Admissible(l, PlaceOp(id, r, t))
    requires Place(l, id, r, t).Ok? && Place(l, id, r, t).value.1.status.Open?
    requires AdmissibleRun(Place(l, id, r, t).value.0, ops) && CancelOp(id) !in ops
    ensures var rested := Place(l, id, r, t).value.0;
            var before := Run(rested, ops);
            && Cancel(before, id).Ok?
            && var after := Cancel(before, id).value.0;
            && Bal(after.balances, a).free - Bal(before.balances, a).free
               == Bal(l.balances, a).free - Bal(rested.balances, a).free
            && Bal(before.balances, a).used - Bal(after.balances, a).used
               == Bal(rested.balances, a).used - Bal(l.balances, a).used
  {
    var (rested, o) := Place(l, id, r, t).value;
    PlaceKeepsReserved(l, id, r, t);
    RunKeepsReserved(rested, ops);
    UncancelledOrderStays(rested, ops, id);
    CancelReleases(Run(rested, ops), id, a);
    var (asset, need) := Reservation(o);
    ShiftUsed(l.balances, asset, -need, need, a);
  }

  function Cancellations(ids: seq<Id>): (ops: seq<Operation>)
    ensures |ops| == |ids| && forall i | 0 <= i < |ids| :: ops[i] == CancelOp(ids[i])
  {
    seq(|ids|, i requires 0 <= i < |ids| => CancelOp(ids[i]))
  }

  lemma {:induction false} CancellingSettles(l: Ledger, ids: seq<Id>, a: string)
    requires Reserved(l)
    ensures var l' := Run(l, Cancellations(ids));
            && Reserved(l')
            && Bal(l'.balances, a).Total() == Bal(l.balances, a).Total()
            && (forall id | id in l'.orders && Live(l'.orders[id]) :: id in l.orders && Live(l.orders[id]) && id !in ids)
    decreases |ids|
  {
    if ids != [] {
      var l1 := Apply(l, CancelOp(ids[0]));
      assert Cancellations(ids)[1..] == Cancellations(ids[1..]);
      CancelKeepsReserved(l, ids[0]);
      if ids[0] in l.orders && Live(l.orders[ids[0]]) {
        CancelReleases(l, ids[0], a);
      }
      CancellingSettles(l1, ids[1..], a);
    }
  }

  /** Cancelling every live order, in any order and with any repeats, leaves
      nothing reserved and every total unchanged. */
  lemma CancelAllFreesEverything(l: Ledger, ids: seq<Id>, a: string)
    requires Reserved(l)
    requires forall id | id in l.orders && Live(l.orders[id]) :: id in ids
    ensures var l' := Run(l, Cancellations(ids));
            && Bal(l'.balances, a).used == 0.0
            && Bal(l'.balances, a).free == Bal(l.balances, a).Total()
  {
    CancellingSettles(l, ids, a);
    var l' := Run(l, Cancellations(ids));
    SumZero(l'.orders, Share(a));
    assert Bal(l'.balances, a).used == Held(l'.orders, a);
  }

  // -- conservation ------------------------------------------------------

  /** An asset's total changes only by a fill: down by what it pays, up by what it receives. */
  lemma TotalsMoveOnlyByFills(l: Ledger, op: Operation, a: string)
    requires Reserved(l)
    ensures var change := Bal(Apply(l, op).balances, a).Total() - Bal(l.balances, a).Total();
            if op.PlaceOp? && Place(l, op.id, op.request, op.ticker).Ok?
               && FillPrice(op.request, op.ticker).Some?
            then
              var p := FillPrice(op.request, op.ticker).value;
              var (paid, received) := (Paid(op.request, p), Received(op.request, p));
              change == (if a == received.0 then received.1 else 0.0) - (if a == paid.0 then paid.1 else 0.0)
            else change == 0.0
  {
    match op
    case PlaceOp(id, r, t) =>
      match FillPrice(r, t) {
        case None =>
          var (asset, need) := Reservation(NewOrder(id, r, t));
          ShiftUsed(l.balances, asset, -need, need, a);
        case Some(p) =>
          var ((asset, need), (got, amount)) := (Paid(r, p), Received(r, p));
          ShiftUsed(l.balances, asset, -need, 0.0, a);
          ShiftUsed(Shift(l.balances, asset, -need, 0.0), got, amount, 0.0, a);
      }
    case CancelOp(id) =>
      if id in l.orders && Live(l.orders[id]) {
        CancelReleases(l, id, a);
      }
  }

  function ValueAt(mark: string -> real): Balance -> real {
    (b: Balance) => Cost(b.Total(), mark(b.asset))
  }

  /** The account's value when each asset is priced by `mark`. */
  ghost function Worth(b: Balances, mark: string -> real): real {
    Sum(b, ValueAt(mark))
  }

  lemma Distribute(x: real, y: real, m: real)
    ensures Cost(x + y, m) == Cost(x, m) + Cost(y, m)
  {
  }

  lemma SumReplace(b: Balances, asset: string, now: Balance, f: Balance -> real)
    requires asset in b || f(Bal(b, asset)) == 0.0
    ensures Sum(b[asset := now], f) == Sum(b, f) - f(Bal(b, asset)) + f(now)
  {
    SumUpdate(b, f, asset, now);
    if asset in b {
      SumWithout(b, f, asset);
    } else {
      assert b - {asset} == b;
    }
  }

  lemma ShiftWorth(b: Balances, asset: string, free: real, used: real, mark: string -> real)
    requires Bal(b, asset).asset == asset
    ensures Worth(Shift(b, asset, free, used), mark) == Worth(b, mark) + Cost(free + used, mark(asset))
  {
    var was, now := Bal(b, asset), Bal(Shift(b, asset, free, used), asset);
    SumReplace(b, asset, now, ValueAt(mark));
    Distribute(was.Total(), free + used, mark(asset));
    hide PaperLedgers.Cost;
    assert now.Total() == was.Total() + (free + used);
  }

  /** The order fills, if it does, at the price `mark` gives its pair. */
  predicate FillsAtMark(op: Operation, mark: string -> real) {
    op.PlaceOp? && FillPrice(op.request, op.ticker).Some? ==>
      var (base, quote) := SplitSymbol(op.request.symbol, QUOTE);
      mark(base) == FillPrice(op.request, op.ticker).value * mark(quote)
  }

  /** The fee an operation charges, valued at `mark`. */
  function FeeOf(l: Ledger, op: Operation, mark: string -> real): real {
    if op.PlaceOp? && Place(l, op.id, op.request, op.ticker).Ok? then
      Cost(NewOrder(op.id, op.request, op.ticker).fee, mark(SplitSymbol(op.request.symbol, QUOTE).1))
    else 0.0
  }

  function FeesOf(l: Ledger, ops: seq<Operation>, mark: string -> real): real
    decreases |ops|
  {
    if ops == [] then 0.0 else FeeOf(l, ops[0], mark) + FeesOf(Apply(l, ops[0]), ops[1..], mark)
  }

  lemma Negate(x: real, m: real)
    ensures Cost(-x, m) == -Cost(x, m) && Cost(0.0, m) == 0.0
  {
  }

  lemma FillArithmetic(amount: real, p: real, base: real, quote: real)
    requires base == p * quote
    ensures var cost := Cost(amount, p);
            && Cost(amount, base) - Cost(cost + Fee(cost), quote) == -Cost(Fee(cost), quote)
            && Cost(cost - Fee(cost), quote) - Cost(amount, base) == -Cost(Fee(cost), quote)
  {
    var cost := Cost(amount, p);
    assert Cost(amount, base) == Cost(cost, quote);
    Distribute(cost, Fee(cost), quote);
    Distribute(cost, -Fee(cost), quote);
    Negate(Fee(cost), quote);
  }

  /** Moving funds between free and used keeps the account's worth. */
  lemma MoveKeepsWorth(b: Balances, asset: string, x: real, mark: string -> real)
    requires Bal(b, asset).asset == asset
    ensures Worth(Shift(b, asset, x, -x), mark) == Worth(b, mark)
  {
    ShiftWorth(b, asset, x, -x, mark);
    Negate(0.0, mark(asset));
  }

  lemma TradeWorth(b: Balances, asset: string, need: real, got: string, amount: real, mark: string -> real)
    requires Bal(b, asset).asset == asset && Bal(b, got).asset == got
    ensures Worth(Shift(Shift(b, asset, -need, 0.0), got, amount, 0.0), mark)
            == Worth(b, mark) - Cost(need, mark(asset)) + Cost(amount, mark(got))
  {
    hide PaperLedgers.Cost;
    Negate(need, mark(asset));
    ShiftWorth(b, asset, -need, 0.0, mark);
    ShiftWorth(Shift(b, asset, -need, 0.0), got, amount, 0.0, mark);
  }

  lemma FillMovesWorth(l: Ledger, id: Id, r: OrderRequest, t: Ticker, p: real, mark: string -> real)
    requires Labelled(l.balances) && Place(l, id, r, t).Ok? && FillPrice(r, t) == Some(p)
    ensures Worth(Place(l, id, r, t).value.0.balances, mark)
            == Worth(l.balances, mark) - Cost(Paid(r, p).1, mark(Paid(r, p).0))
               + Cost(Received(r, p).1, mark(Received(r, p).0))
  {
    hide PaperLedgers.Cost, PaperLedgers.SplitSymbol, Worth;
    TradeWorth(l.balances, Paid(r, p).0, Paid(r, p).1, Received(r, p).0, Received(r, p).1, mark);
  }

  lemma TradeLosesFee(r: OrderRequest, p: real, mark: string -> real)
    requires mark(SplitSymbol(r.symbol, QUOTE).0) == p * mark(SplitSymbol(r.symbol, QUOTE).1)
    ensures Cost(Received(r, p).1, mark(Received(r, p).0)) - Cost(Paid(r, p).1, mark(Paid(r, p).0))
            == -Cost(Fee(Cost(r.amount, p)), mark(SplitSymbol(r.symbol, QUOTE).1))
  {
    hide PaperLedgers.Cost, PaperLedgers.SplitSymbol;
    var (base, quote) := SplitSymbol(r.symbol, QUOTE);
    FillArithmetic(r.amount, p, mark(base), mark(quote));
  }

  lemma FeeOfFill(l: Ledger, id: Id, r: OrderRequest, t: Ticker, p: real, mark: string -> real)
    requires Place(l, id, r, t).Ok? && FillPrice(r, t) == Some(p)
    ensures FeeOf(l, PlaceOp(id, r, t), mark) == Cost(Fee(Cost(r.amount, p)), mark(SplitSymbol(r.symbol, QUOTE).1))
  {
    hide PaperLedgers.Cost, PaperLedgers.SplitSymbol;
    assert NewOrder(id, r, t).fee == Fee(Cost(r.amount, p));
  }

  lemma FillLosesFee(l: Ledger, id: Id, r: OrderRequest, t: Ticker, p: real, mark: string -> real)
    requires Labelled(l.balances) && Place(l, id, r, t).Ok? && FillPrice(r, t) == Some(p)
    requires FillsAtMark(PlaceOp(id, r, t), mark)
    ensures Worth(Place(l, id, r, t).value.0.balances, mark)
            == Worth(l.balances, mark) - FeeOf(l, PlaceOp(id, r, t), mark)
  {
    hide PaperLedgers.Cost, PaperLedgers.SplitSymbol, Worth, FeeOf;
    FillMovesWorth(l, id, r, t, p, mark);
    TradeLosesFee(r, p, mark);
    FeeOfFill(l, id, r, t, p, mark);
  }

  lemma RestKeepsWorth(l: Ledger, id: Id, r: OrderRequest, t: Ticker, mark: string -> real)
    requires Labelled(l.balances) && Place(l, id, r, t).Ok? && FillPrice(r, t).None?
    ensures Worth(Place(l, id, r, t).value.0.balances, mark) == Worth(l.balances, mark)
  {
    var (asset, need) := Reservation(NewOrder(id, r, t));
    MoveKeepsWorth(l.balances, asset, -need, mark);
  }

  lemma CancelMoves(l: Ledger, id: Id)
    requires Reserved(l) && id in l.orders && Live(l.orders[id])
    ensures var (asset, held) := Reservation(l.orders[id]);
            Cancel(l, id).value.0.balances == Shift(l.balances, asset, held, -held)
  {
    LiveReservationCovered(l, id);
  }

  lemma LabelledBal(b: Balances, asset: string)
    requires Labelled(b)
    ensures Bal(b, asset).asset == asset
  {
  }

  lemma CancelKeepsWorth(l: Ledger, id: Id, mark: string -> real)
    requires Reserved(l) && id in l.orders
    ensures Worth(Cancel(l, id).value.0.balances, mark) == Worth(l.balances, mark)
  {
    hide Worth, PaperLedgers.Reservation, PaperLedgers.Shift, Held;
    if Live(l.orders[id]) {
      CancelMoves(l, id);
      LabelledBal(l.balances, Reservation(l.orders[id]).0);
      MoveKeepsWorth(l.balances, Reservation(l.orders[id]).0, Reservation(l.orders[id]).1, mark);
    }
  }

  lemma ApplyLosesFee(l: Ledger, op: Operation, mark: string -> real)
    requires Reserved(l) && FillsAtMark(op, mark)
    ensures Worth(Apply(l, op).balances, mark) == Worth(l.balances, mark) - FeeOf(l, op, mark)
  {
    match op
    case PlaceOp(id, r, t) =>
      if Place(l, id, r, t).Ok? {
        match FillPrice(r, t)
        case Some(p) => FillLosesFee(l, id, r, t, p, mark);
        case None => RestKeepsWorth(l, id, r, t, mark);
      }
    case CancelOp(id) =>
      if id in l.orders {
        CancelKeepsWorth(l, id, mark);
      }
  }

  /** Over any run whose fills all happen at the marks, the account loses exactly its fees. */
  lemma {:induction false} RunLosesExactlyFees(l: Ledger, ops: seq<Operation>, mark: string -> real)
    requires Reserved(l) && AdmissibleRun(l, ops)
    requires forall op | op in ops :: FillsAtMark(op, mark)
    ensures Worth(Run(l, ops).balances, mark) == Worth(l.balances, mark) - FeesOf(l, ops, mark)
    decreases |ops|
  {
    if ops != [] {
      assert ops[0] in ops;
      ApplyLosesFee(l, ops[0], mark);
      ApplyKeepsReserved(l, ops[0]);
      RunLosesExactlyFees(Apply(l, ops[0]), ops[1..], mark);
    }
  }

  function Opposite(side: OrderSide): OrderSide {
    if side.Buy? then Sell else Buy
  }

  /** A fill of `r` at `p` turned `b` into `b'`, as far as `a` is concerned. */
  predicate Traded(b: Balances, b': Balances, r: OrderRequest, p: real, a: string) {
    && Bal(b', a).used == Bal(b, a).used
    && Bal(b', a).free == Bal(b, a).free
         + (if a == Received(r, p).0 then Received(r, p).1 else 0.0)
         - (if a == Paid(r, p).0 then Paid(r, p).1 else 0.0)
  }

  lemma FillTrades(l: Ledger, id: Id, r: OrderRequest, t: Ticker, p: real, a: string)
    requires FillPrice(r, t) == Some(p) && Place(l, id, r, t).Ok?
    ensures Traded(l.balances, Place(l, id, r, t).value.0.balances, r, p, a)
  {
    var ((asset, need), (got, amount)) := (Paid(r, p), Received(r, p));
    ShiftUsed(l.balances, asset, -need, 0.0, a);
    ShiftUsed(Shift(l.balances, asset, -need, 0.0), got, amount, 0.0, a);
  }

  /** The base amount just bought is always free to be sold again. */
  lemma BoughtCanBeSold(l: Ledger, id: Id, r: OrderRequest, t: Ticker, p: real, id': Id, r': OrderRequest, t': Ticker)
    requires Solvent(l.balances) && r.side.Buy? && FillPrice(r, t) == Some(p) && Place(l, id, r, t).Ok?
    requires r'.symbol == r.symbol && r'.amount == r.amount && r'.side.Sell? && FillPrice(r', t').Some?
    ensures Place(Place(l, id, r, t).value.0, id', r', t').Ok?
  {
    var l1 := Place(l, id, r, t).value.0;
    var base := SplitSymbol(r.symbol, QUOTE).0;
    FillTrades(l, id, r, t, p, base);
    assert Bal(l.balances, base).free >= 0.0;
    assert Bal(l1.balances, base).free >= r.amount;
  }

  /** What a fill costs (or brings) in quote, fee included. */
  function CashFlow(r: OrderRequest, p: real): real {
    var cost := Cost(r.amount, p);
    if r.side.Buy? then -(cost + Fee(cost)) else cost - Fee(cost)
  }

  function Acquired(r: OrderRequest): real {
    if r.side.Buy? then r.amount else -r.amount
  }

  lemma TradeTotal(b: Balances, b': Balances, r: OrderRequest, p: real, a: string)
    requires Traded(b, b', r, p, a)
    ensures var (base, quote) := SplitSymbol(r.symbol, QUOTE);
            Bal(b', a).Total() - Bal(b, a).Total()
            == (if a == quote then CashFlow(r, p) else 0.0) + (if a == base then Acquired(r) else 0.0)
  {
    hide PaperLedgers.Cost, Fee, PaperLedgers.SplitSymbol;
  }

  lemma RoundTripCash(r: OrderRequest, e: real, r': OrderRequest, x: real)
    requires r.amount > 0.0 && e > 0.0 && x > 0.0
    requires r'.amount == r.amount && r'.side == Opposite(r.side)
    ensures Risk.Pnl(r.side, e, x, r.amount, FEE_RATE).Ok?
    ensures Risk.Pnl(r.side, e, x, r.amount, FEE_RATE).value == CashFlow(r, e) + CashFlow(r', x)
  {
    var q := r.amount;
    assert (x - e) * q == q * x - q * e && (e - x) * q == q * e - q * x && (e + x) * q == q * e + q * x;
  }

  lemma RoundTripTotals(b: Balances, b1: Balances, b2: Balances, r: OrderRequest, e: real,
                        r': OrderRequest, x: real, a: string)
    requires r'.symbol == r.symbol && r'.amount == r.amount && r'.side == Opposite(r.side)
    requires Traded(b, b1, r, e, a) && Traded(b1, b2, r', x, a)
    ensures Bal(b2, a).Total() - Bal(b, a).Total()
            == if a == SplitSymbol(r.symbol, QUOTE).1 then CashFlow(r, e) + CashFlow(r', x) else 0.0
  {
    TradeTotal(b, b1, r, e, a);
    TradeTotal(b1, b2, r', x, a);
  }

  /** Opening at `e` and closing at `x` moves the quote total by exactly the
      calculator's profit, and no other asset's total. */
  lemma RoundTripEarnsPnl(l: Ledger, id: Id, r: OrderRequest, t: Ticker, e: real,
                          id': Id, r': OrderRequest, t': Ticker, x: real, a: string)
    requires r.amount > 0.0 && e > 0.0 && x > 0.0
    requires FillPrice(r, t) == Some(e) && Place(l, id, r, t).Ok?
    requires r'.symbol == r.symbol && r'.amount == r.amount && r'.side == Opposite(r.side)
    requires FillPrice(r', t') == Some(x) && Place(Place(l, id, r, t).value.0, id', r', t').Ok?
    ensures var l2 := Place(Place(l, id, r, t).value.0, id', r', t').value.0;
            var profit := Risk.Pnl(r.side, e, x, r.amount, FEE_RATE);
            && profit.Ok?
            && Bal(l2.balances, a).Total() - Bal(l.balances, a).Total()
               == if a == SplitSymbol(r.symbol, QUOTE).1 then profit.value else 0.0
  {
    var l1 := Place(l, id, r, t).value.0;
    FillTrades(l, id, r, t, e, a);
    FillTrades(l1, id', r', t', x, a);
    RoundTripTotals(l.balances, l1.balances, Place(l1, id', r', t').value.0.balances, r, e, r', x, a);
    RoundTripCash(r, e, r', x);
  }
}
