/** Requests on one account that interleave: each finds the balance rows, waits for their lock,
    loads what it found and commits later; a cancel has read its record before. */
module PaperInterleaving {
  import opened Models
  import opened PaperLedgers
  import opened PaperInvariants
  import opened PaperStores
  import opened PaperRefinement

  /** A locking query finds the rows there are when it starts. It then waits for the lock and
      sees what these rows hold by now, but no row that was inserted meanwhile. */
  datatype Phase =
    | Seen                                       // a cancel that found its record still live
    | Waiting(keys: set<string>)                 // the query has found these rows
    | Loaded(ledger: Ledger, keys: set<string>)  // the working copy

  datatype InFlight = InFlight(request: Request, phase: Phase)

  /** Committed data, the holder of the row lock, requests under way and names drawn so far. */
  datatype System = System(store: Store, lock: Option<Id>, inflight: map<Id, InFlight>, names: set<Id>)

  datatype Step =
    | ReadRecord(q: Id, recordId: Id)
    | FindForCancel(q: Id)
    | FindForPlace(q: Id, recordId: Id, orderId: Id, submission: Submission)
    | TakeLock(q: Id)
    | Commit(q: Id)
    | Abort(q: Id)

  function Restrict(rows: Rows, keys: set<string>): Rows {
    map a | a in rows && a in keys :: rows[a]
  }

  /** What loads from the rows a query has found: the seeded balance if it found none. */
  function Found(rows: Rows, keys: set<string>): Balances {
    LoadBalances(Restrict(rows, keys))
  }

  /** The working copy; the orders are read last, by a query of their own. */
  ghost function Copy(s: Store, keys: set<string>): Ledger {
    Ledger(Found(s.rows, keys), Load(s).orders)
  }

  /** What a request writes, computed from its working copy; records are updated in place. */
  ghost function Written(s: Store, req: Request, l: Ledger): Store {
    match req
    case PlaceReq(recordId, orderId, p) =>
      (match Submit(l, orderId, p)
       case Err(_) => s
       case Ok((l', o)) => Store(Save(s.rows, l'.balances), s.records[recordId := RecordOf(o)]))
    case CancelReq(recordId) =>
      if recordId !in s.records || !Named(s.records[recordId]) then s
      else
        var rec := s.records[recordId];
        match Cancel(l, rec.exchangeOrderId.value)
        case Ok((l', o)) => Store(Save(s.rows, l'.balances), s.records[recordId := rec.(status := o.status)])
        case Err(_) => Store(Save(s.rows, l.balances), s.records[recordId := rec.(status := Canceled)])
  }

  /** Locking no rows locks nothing. */
  ghost predicate Enabled(sys: System, step: Step) {
    match step
    case ReadRecord(q, r) => q !in sys.inflight && r in sys.store.records && !Terminal(sys.store.records[r])
    case FindForCancel(q) => q in sys.inflight && sys.inflight[q].phase.Seen?
    case FindForPlace(q, r, id, p) => q !in sys.inflight && r !in sys.names && id !in sys.names && r != id
    case TakeLock(q) =>
      q in sys.inflight && sys.inflight[q].phase.Waiting? && (sys.inflight[q].phase.keys == {} || sys.lock.None?)
    case Commit(q) =>
      q in sys.inflight && sys.inflight[q].phase.Loaded? && (sys.inflight[q].phase.keys != {} || sys.lock.None?)
    case Abort(q) => q in sys.inflight
  }

  ghost function Leave(sys: System, q: Id): System {
    sys.(lock := if sys.lock == Some(q) then None else sys.lock, inflight := sys.inflight - {q})
  }

  ghost function Next(sys: System, step: Step): System
    requires Enabled(sys, step)
  {
    match step
    case ReadRecord(q, r) => sys.(inflight := sys.inflight[q := InFlight(CancelReq(r), Seen)])
    case FindForCancel(q) =>
      sys.(inflight := sys.inflight[q := InFlight(sys.inflight[q].request, Waiting(sys.store.rows.Keys))])
    case FindForPlace(q, r, id, p) =>
      sys.(inflight := sys.inflight[q := InFlight(PlaceReq(r, id, p), Waiting(sys.store.rows.Keys))],
           names := sys.names + {r, id})
    case TakeLock(q) =>
      var keys := sys.inflight[q].phase.keys;
      sys.(lock := if keys == {} then sys.lock else Some(q),
           inflight := sys.inflight[q := InFlight(sys.inflight[q].request, Loaded(Copy(sys.store, keys), keys))])
    case Commit(q) =>
      Leave(sys, q).(store := Written(sys.store, sys.inflight[q].request, sys.inflight[q].phase.ledger))
    case Abort(q) => Leave(sys, q)
  }

  /** A placement commits whose query did not find all the rows there are by now. */
  predicate Stale(sys: System, step: Step) {
    && step.Commit? && step.q in sys.inflight && sys.inflight[step.q].request.PlaceReq?
    && sys.inflight[step.q].phase.Loaded? && sys.inflight[step.q].phase.keys != sys.store.rows.Keys
  }

  // -- the invariant -----------------------------------------------------

  function Reserves(o: Order): string { Reservation(o).0 }

  ghost predicate CancelFits(sys: System, m: Memory, recordId: Id, phase: Phase) {
    && recordId in m.handles && m.handles[recordId] in m.ledger.orders
    && m.ledger.orders[m.handles[recordId]].status in {Open, Canceled}
    && Reserves(m.ledger.orders[m.handles[recordId]]) in (if phase.Seen? then sys.store.rows.Keys else phase.keys)
  }

  /** What has been found is still there, and what has been loaded is still what these rows hold. */
  ghost predicate PhaseFits(sys: System, q: Id, phase: Phase) {
    && (!phase.Seen? ==> phase.keys <= sys.store.rows.Keys)
    && (phase.Loaded? ==> phase.ledger.balances == Found(sys.store.rows, phase.keys))
    && (phase.Loaded? && phase.keys != {} ==> sys.lock == Some(q) && phase.ledger.orders == Load(sys.store).orders)
  }

  ghost predicate InFlightFits(sys: System, m: Memory, q: Id)
    requires q in sys.inflight
  {
    var (req, phase) := (sys.inflight[q].request, sys.inflight[q].phase);
    && PhaseFits(sys, q, phase)
    && (req.CancelReq? ==> CancelFits(sys, m, req.recordId, phase))
    && (req.PlaceReq? ==> !phase.Seen? && FreshNames(m, req) && {req.recordId, req.orderId} <= sys.names)
  }

  predicate SameNames(sys: System, q: Id, q': Id)
    requires q in sys.inflight && q' in sys.inflight
  {
    var (r, r') := (sys.inflight[q].request, sys.inflight[q'].request);
    r.PlaceReq? && r'.PlaceReq? && (r.recordId == r'.recordId || r.orderId == r'.orderId)
  }

  /** Every order's reserved asset has a balance. */
  predicate ReservesKnown(l: Ledger) {
    forall id | id in l.orders :: Reserves(l.orders[id]) in l.balances
  }

  /** The stored data and the names agree with the memory. */
  ghost predicate StoreFits(sys: System, m: Memory) {
    && Agrees(sys.store, m) && ReservesKnown(m.ledger)
    && (sys.store.rows == map[] ==> m.handles == map[])
    && m.handles.Keys <= sys.names && m.ledger.orders.Keys <= sys.names
  }

  ghost predicate Inv(sys: System, m: Memory) {
    && StoreFits(sys, m)
    && (sys.lock.Some? ==> sys.lock.value in sys.inflight)
    && (forall q | q in sys.inflight :: InFlightFits(sys, m, q))
    && (forall q, q' | q in sys.inflight && q' in sys.inflight && SameNames(sys, q, q') :: q == q')
  }

  // -- commits that are not stale -------------------------------------------

  lemma FoundAll(rows: Rows)
    ensures Found(rows, rows.Keys) == LoadBalances(rows) && Found(rows, {}) == FRESH.balances
  {
    assert Restrict(rows, rows.Keys) == rows && Restrict(rows, {}) == map[];
  }

  lemma FoundSome(rows: Rows, keys: set<string>)
    requires keys != {} && keys <= rows.Keys
    ensures Found(rows, keys).Keys == keys && rows != map[]
    ensures forall a | a in keys :: Found(rows, keys)[a] == LoadBalances(rows)[a]
  {
    var a :| a in keys;
    assert a in Restrict(rows, keys);
  }

  lemma FoundLabelled(rows: Rows, keys: set<string>)
    ensures Labelled(Found(rows, keys))
  {
  }

  lemma ResavingChangesNothing(rows: Rows, keys: set<string>)
    requires keys != {} && keys <= rows.Keys
    ensures Save(rows, Found(rows, keys)) == rows
  {
    FoundSome(rows, keys);
  }

  lemma SameSaves(rows: Rows, b: Balances, b': Balances)
    requires forall a | a in b :: a in b' && b'[a] == b[a]
    requires forall a | a in b' && a !in b :: a in rows && rows[a] == BalanceRow(b'[a].free, b'[a].used)
    ensures Save(rows, b) == Save(rows, b')
  {
  }

  lemma PartialShiftSaves(rows: Rows, keys: set<string>, a: string, free: real, used: real)
    requires a in keys && keys <= rows.Keys
    ensures Save(rows, Shift(Found(rows, keys), a, free, used)) == Save(rows, Shift(LoadBalances(rows), a, free, used))
    ensures Bal(Found(rows, keys), a) == Bal(LoadBalances(rows), a)
  {
    FoundSome(rows, keys);
    var (b, b') := (Shift(Found(rows, keys), a, free, used), Shift(LoadBalances(rows), a, free, used));
    forall c | c in b' && c !in b ensures c in rows && rows[c] == BalanceRow(b'[c].free, b'[c].used) {
    }
    SameSaves(rows, b, b');
    hide PaperStores.Save, Found;
  }

  lemma CanceledRecordNotLoaded(s: Store, m: Memory, recordId: Id)
    requires Agrees(s, m) && recordId in m.handles && m.ledger.orders[m.handles[recordId]].status.Canceled?
    ensures m.handles[recordId] !in Load(s).orders
  {
    LoadSeesMemory(s, m);
  }

  lemma CancelShape(l: Ledger, id: Id)
    requires id in l.orders && l.orders[id].status.Open?
    ensures var (asset, held) := Reservation(l.orders[id]);
            var back := Min(held, Bal(l.balances, asset).used);
            var o := l.orders[id].(status := Canceled, isPaper := true);
            Cancel(l, id) == Ok((Ledger(Shift(l.balances, asset, back, -back), l.orders[id := o]), o))
  {
    hide PaperLedgers.SplitSymbol, PaperLedgers.Cost, PaperLedgers.Shift;
  }

  /** Cancelling on the rows that were found writes what cancelling on all rows does. */
  lemma CancelOnFound(s: Store, keys: set<string>, id: Id)
    requires keys <= s.rows.Keys && keys != {}
    requires id in Load(s).orders && Reserves(Load(s).orders[id]) in keys && Load(s).orders[id].status.Open?
    ensures Cancel(Copy(s, keys), id).Ok? && Cancel(Load(s), id).Ok?
    ensures var ((l, o), (l', o')) := (Cancel(Copy(s, keys), id).value, Cancel(Load(s), id).value);
            o == o' && Save(s.rows, l.balances) == Save(s.rows, l'.balances)
  {
    hide Found, PaperStores.LoadBalances, PaperStores.Save, PaperStores.OpenOrders, PaperLedgers.Reservation,
         PaperLedgers.Cancel, PaperLedgers.Shift;
    var (asset, held) := Reservation(Load(s).orders[id]);
    var back := Min(held, Bal(LoadBalances(s.rows), asset).used);
    PartialShiftSaves(s.rows, keys, asset, back, -back);
    CancelShape(Copy(s, keys), id);
    CancelShape(Load(s), id);
  }

  /** What a cancel of a known record does with the order it stands for. */
  lemma CancelCommit(s: Store, m: Memory, recordId: Id, keys: set<string>)
    requires Agrees(s, m) && recordId in m.handles && m.handles[recordId] in m.ledger.orders
    requires m.ledger.orders[m.handles[recordId]].status in {Open, Canceled}
    requires keys != {} && keys <= s.rows.Keys && Reserves(m.ledger.orders[m.handles[recordId]]) in keys
    ensures Written(s, CancelReq(recordId), Copy(s, keys)) == Persisted(s, CancelReq(recordId)).0
  {
    var id := m.handles[recordId];
    var rec := s.records[recordId];
    assert rec == RecordOf(m.ledger.orders[id]) && m.ledger.orders[id].id == id;
    if m.ledger.orders[id].status.Canceled? {
      CanceledRecordNotLoaded(s, m, recordId);
      ResavingChangesNothing(s.rows, keys);
      assert rec.(status := Canceled) == rec && s.records[recordId := rec] == s.records;
    } else {
      LoadSeesMemory(s, m);
      assert id in LiveView(m.ledger.orders);
      assert Reserves(Load(s).orders[id]) == Reserves(m.ledger.orders[id]);
      CancelOnFound(s, keys, id);
    }
    hide PaperLedgers.Cancel, PaperStores.Save, PaperStores.Load, Found, HandlesFit, OrdersFit, Reserves;
  }

  lemma PlaceOnAll(s: Store, l: Ledger, req: Request)
    requires req.PlaceReq? && l.balances == Load(s).balances
    ensures Written(s, req, l) == Persisted(s, req).0
  {
    SubmitIgnoresOrders(l, Load(s), req.orderId, req.submission);
    hide PaperStores.Submit, PaperStores.Save, PaperStores.Load;
  }

  /** A commit that is not stale does what the whole request would do at once: a placement that
      found all rows, or any cancel, which found at least the row that it releases. */
  lemma CurrentCommitIsAtomic(sys: System, m: Memory, q: Id)
    requires Inv(sys, m) && Enabled(sys, Commit(q)) && !Stale(sys, Commit(q))
    ensures Written(sys.store, sys.inflight[q].request, sys.inflight[q].phase.ledger)
            == Persisted(sys.store, sys.inflight[q].request).0
  {
    assert InFlightFits(sys, m, q);
    var (s, req, phase) := (sys.store, sys.inflight[q].request, sys.inflight[q].phase);
    hide Written, Persisted, Agrees, Found, Inv, PaperStores.OpenOrders;
    match req
    case PlaceReq(_, _, _) =>
      FoundAll(s.rows);
      PlaceOnAll(s, phase.ledger, req);
    case CancelReq(recordId) =>
      assert phase.ledger == Copy(s, phase.keys);
      CancelCommit(s, m, recordId, phase.keys);
  }

  // -- stale commits -------------------------------------------------------

  /** A ledger of the rows that were found, as far as a placement is concerned. */
  function Half(s: Store, keys: set<string>): Ledger {
    Ledger(Found(s.rows, keys), map[])
  }

  /** The memory after a placement that was worked out on the rows it found. */
  function Overwritten(s: Store, m: Memory, req: Request, keys: set<string>): Memory {
    if req.PlaceReq? && Submit(Half(s, keys), req.orderId, req.submission).Ok? then
      var (l, o) := Submit(Half(s, keys), req.orderId, req.submission).value;
      Memory(Ledger(LoadBalances(Save(s.rows, l.balances)), m.ledger.orders[req.orderId := o]),
             m.handles[req.recordId := req.orderId])
    else m
  }

  /** What memory agrees with the store after a step. */
  function After(sys: System, m: Memory, step: Step): Memory {
    if !step.Commit? || step.q !in sys.inflight then m
    else if Stale(sys, step) then
      Overwritten(sys.store, m, sys.inflight[step.q].request, sys.inflight[step.q].phase.keys)
    else InMemory(m, sys.inflight[step.q].request).0
  }

  /** A request adds at most its own names, and touches no handle or settled order. */
  predicate Extends(m: Memory, m': Memory, req: Request) {
    && (forall r | r in m.handles :: r in m'.handles && m'.handles[r] == m.handles[r])
    && (forall r | r in m'.handles && r !in m.handles :: req.PlaceReq? && r == req.recordId)
    && (forall id | id in m.ledger.orders :: id in m'.ledger.orders
          && (m'.ledger.orders[id] == m.ledger.orders[id]
              || (m.ledger.orders[id].status.Open?
                  && m'.ledger.orders[id] == m.ledger.orders[id].(status := Canceled))))
    && (forall id | id in m'.ledger.orders && id !in m.ledger.orders :: req.PlaceReq? && id == req.orderId)
  }

  lemma InMemoryExtends(m: Memory, req: Request)
    requires OrdersFit(m.ledger.orders) && FreshNames(m, req)
    ensures Extends(m, InMemory(m, req).0, req) && (InMemory(m, req).1.Err? ==> InMemory(m, req).0 == m)
  {
    hide PaperStores.Check, PaperLedgers.SplitSymbol, PaperLedgers.Cost;
  }

  lemma OverwrittenExtends(s: Store, m: Memory, req: Request, keys: set<string>)
    requires FreshNames(m, req)
    ensures Extends(m, Overwritten(s, m, req, keys), req)
  {
    hide PaperStores.Submit, PaperStores.Save, PaperStores.LoadBalances, Half;
  }

  lemma CommitExtends(sys: System, m: Memory, q: Id)
    requires Inv(sys, m) && Enabled(sys, Commit(q))
    ensures Extends(m, After(sys, m, Commit(q)), sys.inflight[q].request)
  {
    assert InFlightFits(sys, m, q);
    AgreesFits(sys.store, m);
    InMemoryExtends(m, sys.inflight[q].request);
    OverwrittenExtends(sys.store, m, sys.inflight[q].request, sys.inflight[q].phase.keys);
    hide InMemory, Overwritten, Extends, Agrees;
  }

  lemma AgreesFits(s: Store, m: Memory)
    requires Agrees(s, m)
    ensures OrdersFit(m.ledger.orders)
  {
  }

  lemma SavedRows(rows: Rows, b: Balances)
    ensures Save(rows, b).Keys == rows.Keys + b.Keys
    ensures rows != map[] ==> Save(rows, b) != map[]
    ensures rows != map[] || b != map[] ==> LoadBalances(Save(rows, b)).Keys == rows.Keys + b.Keys
  {
    assert Save(rows, b).Keys == rows.Keys + b.Keys;
    if a :| a in rows {
      assert a in Save(rows, b);
    }
    if a :| a in b {
      assert a in Save(rows, b);
    }
  }

  lemma WrittenIgnoresOrders(s: Store, l: Ledger, l': Ledger, req: Request)
    requires req.PlaceReq? && l.balances == l'.balances
    ensures Written(s, req, l) == Written(s, req, l')
  {
    SubmitIgnoresOrders(l, l', req.orderId, req.submission);
    hide PaperStores.Submit, PaperStores.Save;
  }

  /** An accepted order reserves, or pays with, an asset that has a balance afterwards. */
  lemma SubmitKnowsReserve(l: Ledger, id: Id, p: Submission)
    requires Submit(l, id, p).Ok?
    ensures var (l', o) := Submit(l, id, p).value; Reserves(o) in l'.balances && l.balances.Keys <= l'.balances.Keys
  {
    hide PaperLedgers.SplitSymbol, PaperLedgers.Cost, PaperStores.Check;
  }

  lemma HalfSubmit(s: Store, keys: set<string>, id: Id, p: Submission)
    requires Submit(Half(s, keys), id, p).Ok?
    ensures var (l, o) := Submit(Half(s, keys), id, p).value;
            && o.id == id && o.isPaper && o.status in {Open, Filled} && l.orders == map[id := o]
            && Found(s.rows, keys).Keys <= l.balances.Keys && Reserves(o) in l.balances
            && forall a | a in l.balances :: l.balances[a].asset == a
  {
    FoundLabelled(s.rows, keys);
    SubmitGrows(Half(s, keys), id, p);
    SubmitKnowsReserve(Half(s, keys), id, p);
    hide PaperStores.Submit, Found, Reserves;
  }

  /** A stale placement writes what `Overwritten` remembers. */
  lemma StaleCommitWrites(s: Store, m: Memory, req: Request, keys: set<string>)
    requires Agrees(s, m) && FreshNames(m, req) && req.PlaceReq?
    ensures Agrees(Written(s, req, Half(s, keys)), Overwritten(s, m, req, keys))
    ensures s.rows.Keys <= Written(s, req, Half(s, keys)).rows.Keys
  {
    hide PaperStores.Submit, PaperStores.Save, PaperStores.LoadBalances, PaperStores.RecordOf, Half, Reserves, Found;
    if Submit(Half(s, keys), req.orderId, req.submission).Ok? {
      HalfSubmit(s, keys, req.orderId, req.submission);
      var (l, o) := Submit(Half(s, keys), req.orderId, req.submission).value;
      HandlesAfterPlace(s.records, m.handles, m.ledger.orders, req.recordId, o);
      SavedRows(s.rows, l.balances);
    }
  }

  lemma OverwrittenKnowsReserves(s: Store, m: Memory, req: Request, keys: set<string>)
    requires Agrees(s, m) && ReservesKnown(m.ledger) && FreshNames(m, req) && req.PlaceReq? && s.rows != map[]
    ensures ReservesKnown(Overwritten(s, m, req, keys).ledger)
  {
    if Submit(Half(s, keys), req.orderId, req.submission).Ok? {
      HalfSubmit(s, keys, req.orderId, req.submission);
      SavedRows(s.rows, Submit(Half(s, keys), req.orderId, req.submission).value.0.balances);
      assert m.ledger.balances.Keys == s.rows.Keys;
    }
    hide PaperStores.Submit, PaperStores.Save, PaperStores.LoadBalances, Half, Reserves, Found, HandlesFit, OrdersFit;
  }

  lemma InMemoryKnowsReserves(m: Memory, req: Request)
    requires ReservesKnown(m.ledger) && OrdersFit(m.ledger.orders)
    ensures ReservesKnown(InMemory(m, req).0.ledger)
    ensures m.ledger.balances.Keys <= InMemory(m, req).0.ledger.balances.Keys
  {
    hide PaperLedgers.SplitSymbol, PaperLedgers.Cost, PaperStores.Check;
    if req.PlaceReq? && Submit(m.ledger, req.orderId, req.submission).Ok? {
      SubmitKnowsReserve(m.ledger, req.orderId, req.submission);
    }
  }

  lemma LoadedRows(s: Store, m: Memory)
    requires Agrees(s, m)
    ensures s.rows != map[] ==> m.ledger.balances.Keys == s.rows.Keys
  {
  }

  lemma PersistedGrows(s: Store, req: Request)
    ensures s.rows.Keys <= Persisted(s, req).0.rows.Keys
    ensures req.PlaceReq? && Persisted(s, req).1.Ok? ==> Persisted(s, req).0.rows != map[]
  {
    hide PaperStores.Check, PaperLedgers.SplitSymbol, PaperLedgers.Cost;
    if req.PlaceReq? && Persisted(s, req).1.Ok? {
      var l' := Submit(Load(s), req.orderId, req.submission).value.0;
      SubmitKnowsReserve(Load(s), req.orderId, req.submission);
      SavedRows(s.rows, l'.balances);
    }
  }

  lemma CurrentCommitKeepsStoreFits(sys: System, m: Memory, q: Id)
    requires Inv(sys, m) && Enabled(sys, Commit(q)) && !Stale(sys, Commit(q))
    ensures StoreFits(Next(sys, Commit(q)), After(sys, m, Commit(q)))
    ensures Next(sys, Commit(q)).store == Persisted(sys.store, sys.inflight[q].request).0
    ensures sys.store.rows.Keys <= Next(sys, Commit(q)).store.rows.Keys
  {
    hide InMemory, Written, Agrees, Persisted, Overwritten, ReservesKnown;
    assert InFlightFits(sys, m, q);
    var req := sys.inflight[q].request;
    CurrentCommitIsAtomic(sys, m, q);
    StepAgrees(sys.store, m, req);
    AgreesFits(sys.store, m);
    InMemoryExtends(m, req);
    InMemoryKnowsReserves(m, req);
    PersistedGrows(sys.store, req);
  }

  lemma StaleCommitKeepsStoreFits(sys: System, m: Memory, q: Id)
    requires Inv(sys, m) && Enabled(sys, Commit(q)) && Stale(sys, Commit(q))
    ensures StoreFits(Next(sys, Commit(q)), After(sys, m, Commit(q)))
    ensures sys.store.rows.Keys <= Next(sys, Commit(q)).store.rows.Keys
  {
    hide InMemory, Written, Agrees, Overwritten, ReservesKnown, Found;
    assert InFlightFits(sys, m, q);
    var (req, phase) := (sys.inflight[q].request, sys.inflight[q].phase);
    assert sys.store.rows != map[];
    WrittenIgnoresOrders(sys.store, phase.ledger, Half(sys.store, phase.keys), req);
    StaleCommitWrites(sys.store, m, req, phase.keys);
    AgreesFits(sys.store, m);
    OverwrittenExtends(sys.store, m, req, phase.keys);
    OverwrittenKnowsReserves(sys.store, m, req, phase.keys);
  }

  lemma CommitKeepsStoreFits(sys: System, m: Memory, q: Id)
    requires Inv(sys, m) && Enabled(sys, Commit(q))
    ensures StoreFits(Next(sys, Commit(q)), After(sys, m, Commit(q)))
    ensures sys.store.rows.Keys <= Next(sys, Commit(q)).store.rows.Keys
  {
    if Stale(sys, Commit(q)) {
      StaleCommitKeepsStoreFits(sys, m, q);
    } else {
      CurrentCommitKeepsStoreFits(sys, m, q);
    }
    hide StoreFits, After, Next, Inv;
  }

  lemma LockHolderCommits(sys: System, m: Memory, q: Id)
    requires Inv(sys, m) && Enabled(sys, Commit(q))
    ensures sys.lock == (if sys.inflight[q].phase.keys != {} then Some(q) else None)
  {
    assert InFlightFits(sys, m, q);
  }

  /** Whoever else is loaded while `q` commits has found no rows. */
  lemma OtherPhaseFits(sys: System, m: Memory, q: Id, q': Id)
    requires Inv(sys, m) && Enabled(sys, Commit(q)) && q' in sys.inflight && q != q'
    requires sys.store.rows.Keys <= Next(sys, Commit(q)).store.rows.Keys
    ensures PhaseFits(Next(sys, Commit(q)), q', sys.inflight[q'].phase)
  {
    assert InFlightFits(sys, m, q');
    LockHolderCommits(sys, m, q);
    FoundAll(sys.store.rows);
    FoundAll(Next(sys, Commit(q)).store.rows);
    hide Written, Agrees, Inv, Found;
  }

  lemma OtherCancelFits(sys: System, m: Memory, q: Id, q': Id)
    requires Inv(sys, m) && Enabled(sys, Commit(q)) && q' in sys.inflight && sys.inflight[q'].request.CancelReq?
    requires sys.store.rows.Keys <= Next(sys, Commit(q)).store.rows.Keys
    ensures CancelFits(Next(sys, Commit(q)), After(sys, m, Commit(q)),
                       sys.inflight[q'].request.recordId, sys.inflight[q'].phase)
  {
    assert InFlightFits(sys, m, q');
    CommitExtends(sys, m, q);
    hide After, Written, Agrees, Inv, PhaseFits;
  }

  lemma OthersStillFit(sys: System, m: Memory, q: Id, q': Id)
    requires Inv(sys, m) && Enabled(sys, Commit(q)) && q' in sys.inflight && q != q'
    requires sys.store.rows.Keys <= Next(sys, Commit(q)).store.rows.Keys
    ensures q' in Next(sys, Commit(q)).inflight
    ensures InFlightFits(Next(sys, Commit(q)), After(sys, m, Commit(q)), q')
  {
    assert InFlightFits(sys, m, q) && InFlightFits(sys, m, q');
    assert !SameNames(sys, q, q');
    OtherPhaseFits(sys, m, q, q');
    if sys.inflight[q'].request.CancelReq? {
      OtherCancelFits(sys, m, q, q');
    }
    CommitExtends(sys, m, q);
    hide After, Written, Agrees, Inv, PhaseFits, CancelFits;
  }

  lemma CommitKeepsInv(sys: System, m: Memory, q: Id)
    requires Inv(sys, m) && Enabled(sys, Commit(q))
    ensures Inv(Next(sys, Commit(q)), After(sys, m, Commit(q)))
    ensures sys.store.rows.Keys <= Next(sys, Commit(q)).store.rows.Keys
  {
    hide InMemory, Overwritten, Written, Agrees, Persisted, InFlightFits, StoreFits, After, Stale;
    var sys', m' := Next(sys, Commit(q)), After(sys, m, Commit(q));
    CommitKeepsStoreFits(sys, m, q);
    LockHolderCommits(sys, m, q);
    forall q' | q' in sys'.inflight ensures InFlightFits(sys', m', q') {
      OthersStillFit(sys, m, q, q');
    }
    forall q1, q2 | q1 in sys'.inflight && q2 in sys'.inflight && SameNames(sys', q1, q2) ensures q1 == q2 {
      assert SameNames(sys, q1, q2);
    }
  }

  // -- steps that store nothing ----------------------------------------------

  lemma TakeLockKeepsInv(sys: System, m: Memory, q: Id)
    requires Inv(sys, m) && Enabled(sys, TakeLock(q))
    ensures Inv(Next(sys, TakeLock(q)), m)
  {
    hide Load, Agrees, ReservesKnown, Found;
    assert InFlightFits(sys, m, q);
    var sys' := Next(sys, TakeLock(q));
    forall q' | q' in sys'.inflight ensures InFlightFits(sys', m, q') {
      assert InFlightFits(sys, m, q');
    }
    forall q1, q2 | q1 in sys'.inflight && q2 in sys'.inflight && SameNames(sys', q1, q2) ensures q1 == q2 {
      assert SameNames(sys, q1, q2);
    }
  }

  lemma FindForCancelKeepsInv(sys: System, m: Memory, q: Id)
    requires Inv(sys, m) && Enabled(sys, FindForCancel(q))
    ensures Inv(Next(sys, FindForCancel(q)), m)
  {
    hide Load, Agrees, ReservesKnown, Found;
    assert InFlightFits(sys, m, q);
    var sys' := Next(sys, FindForCancel(q));
    forall q' | q' in sys'.inflight ensures InFlightFits(sys', m, q') {
      assert InFlightFits(sys, m, q');
    }
    forall q1, q2 | q1 in sys'.inflight && q2 in sys'.inflight && SameNames(sys', q1, q2) ensures q1 == q2 {
      assert SameNames(sys, q1, q2);
    }
  }

  lemma FindForPlaceKeepsInv(sys: System, m: Memory, step: Step)
    requires Inv(sys, m) && step.FindForPlace? && Enabled(sys, step)
    ensures Inv(Next(sys, step), m)
  {
    hide Load, Agrees, InFlightFits, ReservesKnown;
    var sys' := Next(sys, step);
    forall q' | q' in sys'.inflight ensures InFlightFits(sys', m, q') {
      FitsAfterFindForPlace(sys, m, step, q');
    }
    forall q1, q2 | q1 in sys'.inflight && q2 in sys'.inflight && SameNames(sys', q1, q2) ensures q1 == q2 {
      OldNamesDiffer(sys, m, step, q1);
      OldNamesDiffer(sys, m, step, q2);
      assert q1 in sys.inflight && q2 in sys.inflight ==> SameNames(sys, q1, q2);
    }
  }

  lemma FitsAfterFindForPlace(sys: System, m: Memory, step: Step, q': Id)
    requires Inv(sys, m) && step.FindForPlace? && Enabled(sys, step) && q' in Next(sys, step).inflight
    ensures InFlightFits(Next(sys, step), m, q')
  {
    assert q' != step.q ==> InFlightFits(sys, m, q');
    hide Load, Agrees, Inv, ReservesKnown, Found;
  }

  lemma OldNamesDiffer(sys: System, m: Memory, step: Step, q: Id)
    requires Inv(sys, m) && step.FindForPlace? && Enabled(sys, step)
    ensures q in sys.inflight && sys.inflight[q].request.PlaceReq? ==>
      sys.inflight[q].request.recordId != step.recordId && sys.inflight[q].request.orderId != step.orderId
  {
    assert q in sys.inflight ==> InFlightFits(sys, m, q);
    hide Agrees, ReservesKnown, Load;
  }

  lemma RecordIsOpen(sys: System, m: Memory, r: Id)
    requires Inv(sys, m) && r in sys.store.records && !Terminal(sys.store.records[r])
    ensures r in m.handles && m.handles[r] in m.ledger.orders && m.ledger.orders[m.handles[r]].status.Open?
    ensures Reserves(m.ledger.orders[m.handles[r]]) in sys.store.rows.Keys
  {
    LoadedRows(sys.store, m);
    hide Reserves, InFlightFits;
  }

  lemma OtherStepKeepsInv(sys: System, m: Memory, step: Step)
    requires Inv(sys, m) && Enabled(sys, step) && (step.ReadRecord? || step.Abort?)
    ensures Inv(Next(sys, step), m)
  {
    hide Agrees, Load, ReservesKnown, Found, Reserves;
    var sys' := Next(sys, step);
    if step.ReadRecord? {
      RecordIsOpen(sys, m, step.recordId);
    }
    forall q' | q' in sys'.inflight ensures InFlightFits(sys', m, q') {
      assert q' in sys.inflight ==> InFlightFits(sys, m, q');
    }
    forall q1, q2 | q1 in sys'.inflight && q2 in sys'.inflight && SameNames(sys', q1, q2) ensures q1 == q2 {
      assert q1 in sys.inflight && q2 in sys.inflight ==> SameNames(sys, q1, q2);
    }
  }

  /** Every step of every interleaving keeps the invariant; only a commit changes what is
      stored, and unless it is stale it does so as the whole request at once would. */
  lemma StepKeepsInv(sys: System, m: Memory, step: Step)
    requires Inv(sys, m) && Enabled(sys, step)
    ensures Inv(Next(sys, step), After(sys, m, step))
    ensures !step.Commit? ==> Next(sys, step).store == sys.store
    ensures step.Commit? && !Stale(sys, step) ==>
      Next(sys, step).store == Persisted(sys.store, sys.inflight[step.q].request).0
    ensures sys.store.rows.Keys <= Next(sys, step).store.rows.Keys
  {
    hide Inv, InMemory, Overwritten, Persisted, Written;
    match step
    case Commit(q) =>
      CommitKeepsInv(sys, m, q);
      if !Stale(sys, step) {
        CurrentCommitKeepsStoreFits(sys, m, q);
      }
    case TakeLock(q) => TakeLockKeepsInv(sys, m, q);
    case FindForCancel(q) => FindForCancelKeepsInv(sys, m, q);
    case FindForPlace(q, r, id, p) => FindForPlaceKeepsInv(sys, m, step);
    case ReadRecord(q, r) => OtherStepKeepsInv(sys, m, step);
    case Abort(q) => OtherStepKeepsInv(sys, m, step);
  }

  const UNUSED := System(EMPTY_STORE, None, map[], {})

  /** An account nobody has used yet, with no request under way. */
  lemma UnusedInv()
    ensures Inv(UNUSED, EMPTY_MEMORY)
  {
  }
}
