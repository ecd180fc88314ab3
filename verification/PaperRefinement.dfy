/** The service that reloads and saves on every request behaves like one ledger
    that is kept in memory for ever. */
module PaperRefinement {
  import opened Models
  import opened PaperLedgers
  import opened PaperInvariants
  import opened PaperStores

  datatype Request =
    | PlaceReq(recordId: Id, orderId: Id, submission: Submission)
    | CancelReq(recordId: Id)

  /** A ledger that is never reloaded, with the order each record id stands for. */
  datatype Memory = Memory(ledger: Ledger, handles: map<Id, Id>)

  const EMPTY_STORE := Store(map[], map[])
  const EMPTY_MEMORY := Memory(FRESH, map[])

  function InMemory(m: Memory, req: Request): (Memory, Result<OrderRecord>) {
    match req
    case PlaceReq(recordId, orderId, p) =>
      (match Submit(m.ledger, orderId, p)
       case Ok((l, o)) => (Memory(l, m.handles[recordId := orderId]), Ok(RecordOf(o)))
       case Err(error) => (m, Err(error)))
    case CancelReq(recordId) =>
      if recordId !in m.handles then (m, Err(NotFound))
      else match Cancel(m.ledger, m.handles[recordId])
        case Ok((l, o)) => (m.(ledger := l), Ok(RecordOf(o)))
        case Err(error) => (m, Err(error))
  }

  ghost function Persisted(s: Store, req: Request): (Store, Result<OrderRecord>) {
    match req
    case PlaceReq(recordId, orderId, p) => PlaceRequest(s, recordId, orderId, p)
    case CancelReq(recordId) => CancelRequest(s, recordId)
  }

  /** New records and orders get names nobody has used. */
  predicate FreshNames(m: Memory, req: Request) {
    req.PlaceReq? ==> req.recordId !in m.handles && req.orderId !in m.ledger.orders
  }

  /** The open orders of a ledger, without the timestamps the database does not keep. */
  function LiveView(orders: Orders): Orders {
    map id | id in orders && Live(orders[id]) :: orders[id].(timestamp := None)
  }

  ghost predicate HandlesFit(records: Records, handles: map<Id, Id>, orders: Orders) {
    && records.Keys == handles.Keys
    && (forall r | r in handles :: handles[r] in orders && records[r] == RecordOf(orders[handles[r]]))
    && (forall r, r' | r in handles && r' in handles && handles[r] == handles[r'] :: r == r')
    && handles.Values == orders.Keys
  }

  predicate OrdersFit(orders: Orders) {
    forall id | id in orders ::
      orders[id].id == id && orders[id].isPaper && orders[id].status in {Open, Filled, Canceled}
  }

  /** The store holds what the memory holds, timestamps aside. */
  ghost predicate Agrees(s: Store, m: Memory) {
    && LoadBalances(s.rows) == m.ledger.balances
    && OrdersFit(m.ledger.orders)
    && HandlesFit(s.records, m.handles, m.ledger.orders)
  }

  lemma AgreementGivesDistinctIds(s: Store, m: Memory)
    requires Agrees(s, m)
    ensures DistinctIds(s.records)
  {
  }

  /** Agreement means loading gives exactly the balances and open orders in memory. */
  lemma LoadSeesMemory(s: Store, m: Memory)
    requires Agrees(s, m)
    ensures Load(s) == Ledger(m.ledger.balances, LiveView(m.ledger.orders))
  {
  }

  lemma SaveThenLoad(rows: Rows, b: Balances)
    requires LoadBalances(rows).Keys <= b.Keys && forall a | a in b :: b[a].asset == a
    ensures LoadBalances(Save(rows, b)) == b
  {
  }

  lemma SubmitGrows(l: Ledger, id: Id, p: Submission)
    requires forall a | a in l.balances :: l.balances[a].asset == a
    ensures Submit(l, id, p).Ok? ==>
      var (l', o) := Submit(l, id, p).value;
      && l.balances.Keys <= l'.balances.Keys
      && (forall a | a in l'.balances :: l'.balances[a].asset == a)
      && l'.orders == l.orders[id := o] && o.id == id && o.isPaper && o.status in {Open, Filled}
  {
    hide PaperLedgers.SplitSymbol, PaperLedgers.Cost, PaperStores.Check;
  }

  /** A submission looks at the balances only. */
  lemma SubmitIgnoresOrders(l: Ledger, l': Ledger, id: Id, p: Submission)
    requires l.balances == l'.balances
    ensures Submit(l, id, p).Ok? == Submit(l', id, p).Ok?
    ensures Submit(l, id, p).Err? ==> Submit(l', id, p) == Submit(l, id, p)
    ensures Submit(l, id, p).Ok? ==>
      && Submit(l, id, p).value.0.balances == Submit(l', id, p).value.0.balances
      && Submit(l, id, p).value.1 == Submit(l', id, p).value.1
  {
    hide PaperLedgers.SplitSymbol, PaperLedgers.Cost, PaperStores.Check;
  }

  lemma HandlesAfterPlace(records: Records, handles: map<Id, Id>, orders: Orders, recordId: Id, o: Order)
    requires HandlesFit(records, handles, orders) && recordId !in handles && o.id !in orders
    ensures HandlesFit(records[recordId := RecordOf(o)], handles[recordId := o.id], orders[o.id := o])
  {
    var h' := handles[recordId := o.id];
    forall id | id in orders[o.id := o] ensures id in h'.Values {
      if id == o.id {
        assert h'[recordId] == id;
      } else {
        var r :| r in handles && handles[r] == id;
        assert h'[r] == id;
      }
    }
  }

  lemma PlaceAgrees(s: Store, m: Memory, recordId: Id, orderId: Id, p: Submission)
    requires Agrees(s, m) && FreshNames(m, PlaceReq(recordId, orderId, p))
    ensures var (s', answer) := PlaceRequest(s, recordId, orderId, p);
            var (m', answer') := InMemory(m, PlaceReq(recordId, orderId, p));
            answer == answer' && Agrees(s', m')
  {
    hide PaperStores.Submit, PaperStores.RecordOf, PaperStores.Save;
    var l := Load(s);
    SubmitIgnoresOrders(l, m.ledger, orderId, p);
    if Submit(l, orderId, p).Ok? {
      SubmitGrows(m.ledger, orderId, p);
      var (l', o) := Submit(m.ledger, orderId, p).value;
      HandlesAfterPlace(s.records, m.handles, m.ledger.orders, recordId, o);
      SaveThenLoad(s.rows, l'.balances);
    }
  }

  lemma HandlesAfterCancel(records: Records, handles: map<Id, Id>, orders: Orders, recordId: Id, o: Order)
    requires HandlesFit(records, handles, orders) && recordId in handles && handles[recordId] == o.id
    requires OrdersFit(orders) && o.isPaper && o.status.Canceled?
    ensures HandlesFit(records[recordId := RecordOf(o)], handles, orders[o.id := o]) && OrdersFit(orders[o.id := o])
  {
  }

  /** What cancelling does depends on the balances and on the order itself. */
  lemma CancelIgnoresOthers(l: Ledger, l': Ledger, id: Id)
    requires l.balances == l'.balances && id in l.orders && id in l'.orders
    requires l'.orders[id] == l.orders[id].(timestamp := None) && l.orders[id].isPaper
    requires l.orders[id].status.Open? && forall a | a in l.balances :: l.balances[a].asset == a
    ensures Cancel(l, id).Ok? && Cancel(l', id).Ok?
    ensures var (after, o) := Cancel(l, id).value;
            && o == l.orders[id].(status := Canceled) && after.orders == l.orders[id := o]
            && Cancel(l', id).value.0.balances == after.balances
            && Cancel(l', id).value.1.status == Canceled
            && l.balances.Keys <= after.balances.Keys
            && (forall a | a in after.balances :: after.balances[a].asset == a)
  {
  }

  lemma OpenCancelOutcome(s: Store, m: Memory, recordId: Id, id: Id)
    requires Agrees(s, m) && recordId in m.handles && m.handles[recordId] == id && m.ledger.orders[id].status.Open?
    ensures Cancel(m.ledger, id).Ok? && Cancel(Load(s), id).Ok?
    ensures var (after, o) := Cancel(m.ledger, id).value;
            && o == m.ledger.orders[id].(status := Canceled) && after.orders == m.ledger.orders[id := o]
            && Cancel(Load(s), id).value.0.balances == after.balances
            && Cancel(Load(s), id).value.1.status == Canceled
            && LoadBalances(Save(s.rows, after.balances)) == after.balances
  {
    assert id in LiveView(m.ledger.orders);
    LoadSeesMemory(s, m);
    hide PaperStores.Save, PaperStores.LoadBalances, PaperLedgers.Cancel, PaperStores.Load, HandlesFit;
    CancelIgnoresOthers(m.ledger, Load(s), id);
    SaveThenLoad(s.rows, Cancel(m.ledger, id).value.0.balances);
  }

  lemma OpenCancelAgrees(s: Store, m: Memory, recordId: Id)
    requires Agrees(s, m) && recordId in m.handles && m.ledger.orders[m.handles[recordId]].status.Open?
    ensures var (s', answer) := CancelRequest(s, recordId);
            var (m', answer') := InMemory(m, CancelReq(recordId));
            answer == answer' && Agrees(s', m')
  {
    var id := m.handles[recordId];
    var order := m.ledger.orders[id];
    assert recordId in s.records && s.records[recordId] == RecordOf(order);
    assert !Terminal(RecordOf(order)) && Named(RecordOf(order)) && RecordOf(order).exchangeOrderId.value == order.id;
    var o := order.(status := Canceled);
    assert RecordOf(order).(status := Canceled) == RecordOf(o);
    HandlesAfterCancel(s.records, m.handles, m.ledger.orders, recordId, o);
    hide PaperStores.Save, PaperStores.LoadBalances, PaperLedgers.Cancel, PaperStores.Load, HandlesFit, RecordOf, Terminal,
         Named, OrdersFit;
    OpenCancelOutcome(s, m, recordId, id);
  }

  lemma CancelAgrees(s: Store, m: Memory, recordId: Id)
    requires Agrees(s, m)
    ensures var (s', answer) := CancelRequest(s, recordId);
            var (m', answer') := InMemory(m, CancelReq(recordId));
            answer == answer' && Agrees(s', m')
  {
    hide PaperStores.Save, PaperStores.LoadBalances;
    if recordId in m.handles && m.ledger.orders[m.handles[recordId]].status.Open? {
      OpenCancelAgrees(s, m, recordId);
    }
    hide PaperStores.Load;
  }

  // -- whole request sequences -------------------------------------------

  predicate Fresh(m: Memory, reqs: seq<Request>)
    decreases |reqs|
  {
    reqs != [] ==> FreshNames(m, reqs[0]) && Fresh(InMemory(m, reqs[0]).0, reqs[1..])
  }

  /** The final memory, and the answer to every request. */
  function RunInMemory(m: Memory, reqs: seq<Request>): (Memory, seq<Result<OrderRecord>>)
    decreases |reqs|
  {
    if reqs == [] then (m, [])
    else
      var (m', answer) := InMemory(m, reqs[0]);
      var (last, answers) := RunInMemory(m', reqs[1..]);
      (last, [answer] + answers)
  }

  /** The final store, and the answer to every request. */
  ghost function RunPersisted(s: Store, reqs: seq<Request>): (Store, seq<Result<OrderRecord>>)
    decreases |reqs|
  {
    if reqs == [] then (s, [])
    else
      var (s', answer) := Persisted(s, reqs[0]);
      var (last, answers) := RunPersisted(s', reqs[1..]);
      (last, [answer] + answers)
  }

  lemma StepAgrees(s: Store, m: Memory, req: Request)
    requires Agrees(s, m) && FreshNames(m, req)
    ensures Persisted(s, req).1 == InMemory(m, req).1
    ensures Agrees(Persisted(s, req).0, InMemory(m, req).0)
  {
    match req
    case PlaceReq(recordId, orderId, p) => PlaceAgrees(s, m, recordId, orderId, p);
    case CancelReq(recordId) => CancelAgrees(s, m, recordId);
  }

  lemma {:induction false} RunAgrees(s: Store, m: Memory, reqs: seq<Request>)
    requires Agrees(s, m) && Fresh(m, reqs)
    ensures RunPersisted(s, reqs).1 == RunInMemory(m, reqs).1
    ensures Agrees(RunPersisted(s, reqs).0, RunInMemory(m, reqs).0)
    decreases |reqs|
  {
    hide Persisted, InMemory, Agrees;
    if reqs != [] {
      StepAgrees(s, m, reqs[0]);
      RunAgrees(Persisted(s, reqs[0]).0, InMemory(m, reqs[0]).0, reqs[1..]);
    }
  }

  /** From first use on, every request sequence gets the same answers from the service as
      from one ledger kept in memory, and leaves the same balances and open orders. */
  lemma ServiceRefinesMemory(reqs: seq<Request>)
    requires Fresh(EMPTY_MEMORY, reqs)
    ensures var (s, answers) := RunPersisted(EMPTY_STORE, reqs);
            var (m, answers') := RunInMemory(EMPTY_MEMORY, reqs);
            && answers == answers'
            && Load(s) == Ledger(m.ledger.balances, LiveView(m.ledger.orders))
  {
    RunAgrees(EMPTY_STORE, EMPTY_MEMORY, reqs);
    LoadSeesMemory(RunPersisted(EMPTY_STORE, reqs).0, RunInMemory(EMPTY_MEMORY, reqs).0);
  }
}
