/** The service that rebuilds the ledger, runs one operation and saves, per request. */
module PaperServices {
  import opened Models
  import opened PaperLedgers
  import opened PaperStores
  import opened PaperAdapters
  import Risk

  lemma NoOpenOrders(records: Records)
    ensures OpenOrders(records, records.Keys - records.Keys) == map[]
  {
  }

  lemma OpenOrdersGrow(records: Records, ids: set<Id>, r: Id)
    requires DistinctIds(records) && ids <= records.Keys && r in records
    ensures OpenOrders(records, ids + {r}) ==
            if Restores(records[r])
            then OpenOrders(records, ids)[records[r].exchangeOrderId.value := OrderOf(records[r])]
            else OpenOrders(records, ids)
  {
    var more := OpenOrders(records, ids + {r});
    forall r' | r' in ids + {r} && Restores(records[r'])
      ensures more[records[r'].exchangeOrderId.value] == OrderOf(records[r'])
      ensures r' in ids ==> OpenOrders(records, ids)[records[r'].exchangeOrderId.value] == OrderOf(records[r'])
    {
      RestoredByOnly(records, ids + {r}, r');
      if r' in ids {
        RestoredByOnly(records, ids, r');
      }
    }
  }

  class Database {
    var rows: Rows
    var records: Records

    ghost function Value(): Store
      reads this
    {
      Store(rows, records)
    }
  }

  class PaperLedgerRepository {
    const db: Database

    constructor (db: Database)
      ensures this.db == db
    {
      this.db := db;
    }

    method LoadLedger() returns (ledger: PaperLedger)
      requires DistinctIds(db.records)
      ensures fresh(ledger) && ledger.Value() == Load(db.Value())
    {
      var balances: Balances := map a | a in db.rows :: Balance(a, db.rows[a].free, db.rows[a].used);
      if |balances| == 0 {
        balances := balances[QUOTE := Balance(QUOTE, STARTING_BALANCE, 0.0)];
      }
      assert db.rows != map[] ==> exists a | a in db.rows :: a in balances;
      ledger := new PaperLedger(map[], map[]);
      ledger.balances := balances;
      ledger.orders := LoadOpenOrders();
    }

    method LoadOpenOrders() returns (orders: Orders)
      requires DistinctIds(db.records)
      ensures orders == OpenOrders(db.records, db.records.Keys)
    {
      orders := map[];
      hide PaperStores.OpenOrders, PaperStores.DistinctIds, PaperStores.OrderOf;
      NoOpenOrders(db.records);
      var todo := db.records.Keys;
      while todo != {}
        invariant todo <= db.records.Keys
        invariant orders == OpenOrders(db.records, db.records.Keys - todo)
      {
        var id :| id in todo;
        var rec := db.records[id];
        ghost var done := db.records.Keys - todo;
        todo := todo - {id};
        assert db.records.Keys - todo == done + {id};
        if Restores(rec) {
          orders := orders[rec.exchangeOrderId.value := OrderOf(rec)];
        }
        OpenOrdersGrow(db.records, done, id);
      }
      assert db.records.Keys - todo == db.records.Keys;
    }

    method SaveLedger(ledger: PaperLedger)
      modifies db`rows
      ensures db.rows == Save(old(db.rows), ledger.balances)
    {
      ghost var before := db.rows;
      var todo := ledger.balances.Keys;
      while todo != {}
        invariant todo <= ledger.balances.Keys
        invariant db.rows == before + map a | a in ledger.balances && a !in todo ::
          BalanceRow(ledger.balances[a].free, ledger.balances[a].used)
      {
        var a :| a in todo;
        db.rows := db.rows[a := BalanceRow(ledger.balances[a].free, ledger.balances[a].used)];
        todo := todo - {a};
      }
    }
  }

  lemma LoadNamesBalances(s: Store)
    ensures forall a | a in Load(s).balances :: Load(s).balances[a].asset == a
  {
  }

  lemma FailedPlaceKeepsStore(s: Store, recordId: Id, orderId: Id, p: Submission)
    ensures PlaceRequest(s, recordId, orderId, p).1.Err? ==> PlaceRequest(s, recordId, orderId, p).0 == s
  {
  }

  class TradingService {
    const db: Database
    const repo: PaperLedgerRepository

    constructor (db: Database)
      ensures this.db == db && repo.db == db
    {
      this.db := db;
      this.repo := new PaperLedgerRepository(db);
    }

    static method ScanQuoteEquity(adapter: PaperAdapter, symbol: string) returns (equity: real)
      requires forall a | a in adapter.ledger.balances :: adapter.ledger.balances[a].asset == a
      ensures equity == QuoteEquity(adapter.ledger.balances, symbol)
    {
      var quote := SplitSymbol(symbol, QUOTE).1;
      var balances, assets := adapter.FetchBalance();
      for i := 0 to |balances|
        invariant forall j | 0 <= j < i :: assets[j] != quote
      {
        if balances[i].asset == quote {
          assert assets[i] in assets;
          return balances[i].Total();
        }
      }
      return 0.0;
    }

    /** Place an order. The ledger is saved even when the operation fails. */
    method PlaceOrder(p: Submission, recordId: Id, orderId: Id) returns (r: Result<OrderRecord>)
      requires repo.db == db && DistinctIds(db.records)
      modifies db
      ensures r == PlaceRequest(old(db.Value()), recordId, orderId, p).1
      ensures r.Ok? ==> db.Value() == PlaceRequest(old(db.Value()), recordId, orderId, p).0
      ensures r.Err? ==> db.records == old(db.records)
      ensures r.Err? ==> db.rows == Save(old(db.rows), Load(old(db.Value())).balances)
    {
      hide PaperLedgers.Cost, PaperLedgers.Place, PaperStores.Load, PaperStores.Save, PaperStores.DistinctIds,
           PaperStores.RecordOf, PaperStores.QuoteEquity, Risk.CheckOrder;
      LoadNamesBalances(db.Value());
      var ledger := repo.LoadLedger();
      var adapter := new PaperAdapter(ledger);
      var equity := ScanQuoteEquity(adapter, p.request.symbol);
      var notional := Cost(p.request.amount, ReferencePrice(p));
      var checked := Risk.CheckOrder(
        notional, if equity > 0.0 then equity else notional * Risk.MAX_LEVERAGE, Leverage(p));
      assert checked == Check(Load(old(db.Value())).balances, p);
      if checked.Err? {
        repo.SaveLedger(ledger);
        return Err(checked.error);
      }
      var placed := adapter.CreateOrder(p.request, p.fillTicker, orderId);
      if placed.Err? {
        repo.SaveLedger(ledger);
        return Err(placed.error);
      }
      db.records := db.records[recordId := RecordOf(placed.value)];
      repo.SaveLedger(ledger);
      return Ok(RecordOf(placed.value));
    }

    method CancelOrder(recordId: Id) returns (r: Result<OrderRecord>)
      requires repo.db == db && DistinctIds(db.records)
      modifies db
      ensures r == CancelRequest(old(db.Value()), recordId).1
      ensures db.Value() == CancelRequest(old(db.Value()), recordId).0
    {
      if recordId !in db.records {
        return Err(NotFound);
      }
      var rec := db.records[recordId];
      if rec.status in {Canceled, Filled} {
        return Ok(rec);
      }
      var ledger := repo.LoadLedger();
      var adapter := new PaperAdapter(ledger);
      if Named(rec) {
        var result := adapter.CancelOrder(rec.exchangeOrderId.value);
        rec := rec.(status := if result.Ok? then result.value.status else Canceled);
      } else {
        rec := rec.(status := Canceled);
      }
      db.records := db.records[recordId := rec];
      repo.SaveLedger(ledger);
      return Ok(rec);
    }

    /** One HTTP request: commit when the handler returns, roll back when it raises. */
    method HandlePlace(p: Submission, recordId: Id, orderId: Id) returns (r: Result<OrderRecord>)
      requires repo.db == db && DistinctIds(db.records)
      modifies db
      ensures r == PlaceRequest(old(db.Value()), recordId, orderId, p).1
      ensures db.Value() == PlaceRequest(old(db.Value()), recordId, orderId, p).0
    {
      hide PaperStores.PlaceRequest;
      FailedPlaceKeepsStore(db.Value(), recordId, orderId, p);
      var rows, records := db.rows, db.records;
      r := PlaceOrder(p, recordId, orderId);
      if r.Err? {
        db.rows, db.records := rows, records;
      }
    }
  }
}
