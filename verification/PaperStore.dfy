/** The persisted form of a paper account, and one request against it, as
    functions on store values. */
module PaperStores {
  import opened Models
  import opened PaperLedgers
  import Risk

  datatype BalanceRow = BalanceRow(free: real, used: real)

  datatype OrderRecord = OrderRecord(
    exchangeOrderId: Option<Id>, clientOrderId: Option<Id>, symbol: string, side: OrderSide,
    kind: OrderType, status: OrderStatus, amount: real, filled: real, price: Option<real>,
    average: Option<real>, fee: real, isPaper: bool)

  type Rows = map<string, BalanceRow>
  type Records = map<Id, OrderRecord>

  /** One account's balance rows by asset and order records by primary key. */
  datatype Store = Store(rows: Rows, records: Records)

  /** An order to place, with the tickers the check and the adapter happen to see. */
  datatype Submission = Submission(
    request: OrderRequest, leverage: Option<int>, checkTicker: Ticker, fillTicker: Ticker)

  predicate Named(rec: OrderRecord) {
    rec.exchangeOrderId.Some?
  }

  /** Records that come back as orders of the in-memory ledger. */
  predicate Restores(rec: OrderRecord) {
    rec.isPaper && rec.status in {Open, PartiallyFilled} && Named(rec)
  }

  predicate SameId(records: Records, i: Id, j: Id) {
    && i in records && j in records && Named(records[i])
    && records[i].exchangeOrderId == records[j].exchangeOrderId
  }

  /** Exchange order ids are drawn fresh, so no two records share one. */
  ghost predicate DistinctIds(records: Records) {
    forall i, j :: SameId(records, i, j) ==> i == j
  }

  function OrderOf(rec: OrderRecord): Order
    requires Named(rec)
  {
    Order(rec.exchangeOrderId.value, rec.symbol, rec.side, rec.kind, rec.status, rec.amount, rec.filled,
          rec.price, rec.average, None, rec.clientOrderId, rec.fee, true)
  }

  function RecordOf(o: Order): OrderRecord {
    OrderRecord(Some(o.id), o.clientOrderId, o.symbol, o.side, o.kind, o.status, o.amount, o.filled,
                o.price, o.average, o.fee, o.isPaper)
  }

  /** The seeded quote balance stands in for an account with no rows yet. */
  function LoadBalances(rows: Rows): Balances {
    if rows == map[] then FRESH.balances
    else map a | a in rows :: Balance(a, rows[a].free, rows[a].used)
  }

  /** The orders that the records in `ids` restore, by order id. */
  ghost function OpenOrders(records: Records, ids: set<Id>): (orders: Orders) {
    map id | id in (set r | r in ids && r in records && Restores(records[r]) :: records[r].exchangeOrderId.value) ::
      RestoredBy(records, ids, id)
  }

  /** The order some record restores under `orderId`. */
  ghost function RestoredBy(records: Records, ids: set<Id>, orderId: Id): Order
    requires exists r :: r in ids && r in records && Restores(records[r]) && records[r].exchangeOrderId.value == orderId
  {
    var r :| r in ids && r in records && Restores(records[r]) && records[r].exchangeOrderId.value == orderId;
    OrderOf(records[r])
  }

  lemma RestoredByOnly(records: Records, ids: set<Id>, r: Id)
    requires DistinctIds(records) && r in ids && r in records && Restores(records[r])
    ensures RestoredBy(records, ids, records[r].exchangeOrderId.value) == OrderOf(records[r])
  {
    forall r' | r' in records && Restores(records[r']) && records[r'].exchangeOrderId == records[r].exchangeOrderId
      ensures r' == r
    {
      assert SameId(records, r', r);
    }
  }

  ghost function Load(s: Store): Ledger {
    Ledger(LoadBalances(s.rows), OpenOrders(s.records, s.records.Keys))
  }

  /** Upserting every balance of the ledger. */
  function Save(rows: Rows, b: Balances): Rows {
    rows + map a | a in b :: BalanceRow(b[a].free, b[a].used)
  }

  /** What the account owns of the pair's quote asset, 0 when it owns nothing. */
  function QuoteEquity(b: Balances, symbol: string): real {
    var total := Bal(b, SplitSymbol(symbol, QUOTE).1).Total();
    if total > 0.0 then total else 0.0
  }

  function Leverage(p: Submission): real {
    if p.leverage.Some? && p.leverage.value != 0 then p.leverage.value as real else 1.0
  }

  function ReferencePrice(p: Submission): real {
    if p.request.price.Some? then p.request.price.value else p.checkTicker.last
  }

  /** The pre-trade check against the loaded balances. */
  function Check(b: Balances, p: Submission): Result<()> {
    var notional := Cost(p.request.amount, ReferencePrice(p));
    var equity := QuoteEquity(b, p.request.symbol);
    Risk.CheckOrder(notional, if equity > 0.0 then equity else notional * Risk.MAX_LEVERAGE, Leverage(p))
  }

  /** Check, then place: one submission against an in-memory ledger. */
  function Submit(l: Ledger, id: Id, p: Submission): Result<(Ledger, Order)> {
    var checked := Check(l.balances, p);
    if checked.Err? then Err(checked.error) else Place(l, id, p.request, p.fillTicker)
  }

  predicate Terminal(rec: OrderRecord) {
    rec.status in {Canceled, Filled}
  }

  /** A submission request: load, operate, save, record; a failure rolls back. */
  ghost function PlaceRequest(s: Store, recordId: Id, orderId: Id, p: Submission): (Store, Result<OrderRecord>)
  {
    match Submit(Load(s), orderId, p)
    case Err(error) => (s, Err(error))
    case Ok((l, o)) => (Store(Save(s.rows, l.balances), s.records[recordId := RecordOf(o)]), Ok(RecordOf(o)))
  }

  /** A cancel request, by record: a settled record answers without touching anything. */
  ghost function CancelRequest(s: Store, recordId: Id): (Store, Result<OrderRecord>)
  {
    if recordId !in s.records then (s, Err(NotFound))
    else
      var rec := s.records[recordId];
      if Terminal(rec) then (s, Ok(rec))
      else
        var l := Load(s);
        var (l', status) :=
          if !Named(rec) then (l, Canceled)
          else match Cancel(l, rec.exchangeOrderId.value)
            case Ok((after, o)) => (after, o.status)
            case Err(_) => (l, Canceled);
        var rec' := rec.(status := status);
        (Store(Save(s.rows, l'.balances), s.records[recordId := rec']), Ok(rec'))
  }
}
