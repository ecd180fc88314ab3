/** Whole runs of interleaved requests: reservations released once, when they are backed at
    every commit, and the first-use race that breaks them. */
module PaperSafety {
  import opened Models
  import opened PaperLedgers
  import opened PaperInvariants
  import opened PaperStores
  import opened PaperRefinement
  import opened PaperInterleaving

  // -- runs --------------------------------------------------------------

  predicate ValidPlacement(req: Request) {
    req.PlaceReq? ==> ValidRequest(req.submission.request)
  }

  predicate ValidStep(step: Step) {
    step.FindForPlace? ==> ValidRequest(step.submission.request)
  }

  predicate AllValid(sys: System) {
    forall q | q in sys.inflight :: ValidPlacement(sys.inflight[q].request)
  }

  /** Any interleaving of valid requests. */
  ghost predicate Runs(sys: System, steps: seq<Step>)
    decreases |steps|
  {
    steps != [] ==> Enabled(sys, steps[0]) && ValidStep(steps[0]) && Runs(Next(sys, steps[0]), steps[1..])
  }

  ghost function End(sys: System, steps: seq<Step>): System
    requires Runs(sys, steps)
    decreases |steps|
  {
    if steps == [] then sys else End(Next(sys, steps[0]), steps[1..])
  }

  lemma StepKeepsAllValid(sys: System, step: Step)
    requires AllValid(sys) && Enabled(sys, step) && ValidStep(step)
    ensures AllValid(Next(sys, step))
  {
    hide Written, Load, ValidRequest;
  }

  // -- at most one release -----------------------------------------------

  /** The step commits a cancel whose working copy still holds the order. */
  ghost predicate Releases(sys: System, step: Step, recordId: Id) {
    && step.Commit? && Enabled(sys, step) && sys.inflight[step.q].request == CancelReq(recordId)
    && recordId in sys.store.records && Named(sys.store.records[recordId])
    && sys.store.records[recordId].exchangeOrderId.value in sys.inflight[step.q].phase.ledger.orders
  }

  ghost function ReleaseCount(sys: System, steps: seq<Step>, recordId: Id): nat
    requires Runs(sys, steps)
    decreases |steps|
  {
    if steps == [] then 0
    else (if Releases(sys, steps[0], recordId) then 1 else 0) + ReleaseCount(Next(sys, steps[0]), steps[1..], recordId)
  }

  predicate Settled(m: Memory, recordId: Id) {
    recordId in m.handles && m.handles[recordId] in m.ledger.orders
    && m.ledger.orders[m.handles[recordId]].status.Canceled?
  }

  lemma OnlyCommitsMatter(sys: System, m: Memory, step: Step)
    ensures !step.Commit? ==> After(sys, m, step) == m
  {
  }

  lemma SettledNeverReleases(sys: System, m: Memory, step: Step, recordId: Id)
    requires Inv(sys, m) && Enabled(sys, step) && Settled(m, recordId)
    ensures !Releases(sys, step, recordId) && Settled(After(sys, m, step), recordId)
  {
    hide InMemory, Load, After;
    if step.Commit? {
      assert InFlightFits(sys, m, step.q);
      CommitExtends(sys, m, step.q);
      CanceledRecordNotLoaded(sys.store, m, recordId);
    }
    assert !step.Commit? ==> After(sys, m, step) == m by {
      OnlyCommitsMatter(sys, m, step);
    }
  }

  lemma StoreAgrees(sys: System, m: Memory)
    requires Inv(sys, m)
    ensures Agrees(sys.store, m)
  {
  }

  lemma LoadedIsOpen(s: Store, m: Memory, recordId: Id)
    requires Agrees(s, m) && recordId in s.records && Named(s.records[recordId])
    ensures s.records[recordId].exchangeOrderId.value in Load(s).orders ==>
      && recordId in m.handles && m.handles[recordId] in m.ledger.orders
      && m.ledger.orders[m.handles[recordId]].status.Open?
  {
    LoadSeesMemory(s, m);
    hide PaperStores.Load;
  }

  lemma CancelSettles(m: Memory, recordId: Id)
    requires recordId in m.handles && m.handles[recordId] in m.ledger.orders
    requires m.ledger.orders[m.handles[recordId]].status.Open?
    ensures Settled(InMemory(m, CancelReq(recordId)).0, recordId)
  {
    hide PaperLedgers.Reservation, PaperLedgers.Shift;
  }

  lemma ReleaseSettles(sys: System, m: Memory, step: Step, recordId: Id)
    requires Inv(sys, m) && Releases(sys, step, recordId)
    ensures Settled(After(sys, m, step), recordId)
  {
    assert InFlightFits(sys, m, step.q);
    StoreAgrees(sys, m);
    LoadedIsOpen(sys.store, m, recordId);
    CancelSettles(m, recordId);
    hide InMemory, Agrees, Settled, PaperStores.Load, Written, Inv;
  }

  lemma {:induction false} ReleasedAtMostOnce(sys: System, m: Memory, steps: seq<Step>, recordId: Id)
    requires Inv(sys, m) && Runs(sys, steps)
    ensures ReleaseCount(sys, steps, recordId) <= if Settled(m, recordId) then 0 else 1
    decreases |steps|
  {
    hide Inv, Enabled, Settled, Releases;
    if steps != [] {
      StepKeepsInv(sys, m, steps[0]);
      if Settled(m, recordId) {
        SettledNeverReleases(sys, m, steps[0], recordId);
      } else if Releases(sys, steps[0], recordId) {
        ReleaseSettles(sys, m, steps[0], recordId);
      }
      ReleasedAtMostOnce(Next(sys, steps[0]), After(sys, m, steps[0]), steps[1..], recordId);
    }
  }

  // -- reservations, from memory to store ----------------------------------

  lemma ShareIgnoresTimestamp(o: Order, a: string)
    ensures Share(a)(o.(timestamp := None)) == Share(a)(o)
    ensures !Live(o) ==> Share(a)(o) == 0.0
  {
  }

  lemma NothingLive(orders: Orders)
    requires orders == map[]
    ensures LiveView(orders) == map[]
  {
  }

  lemma LiveViewWithout(orders: Orders, k: Id)
    requires k in orders
    ensures LiveView(orders - {k}) == LiveView(orders) - {k}
    ensures Live(orders[k]) ==> k in LiveView(orders) && LiveView(orders)[k] == orders[k].(timestamp := None)
    ensures !Live(orders[k]) ==> LiveView(orders) - {k} == LiveView(orders)
  {
  }

  lemma {:induction false} HeldLiveView(orders: Orders, a: string)
    ensures Held(LiveView(orders), a) == Held(orders, a)
    decreases orders.Keys
  {
    hide Reservation, Share, LiveView, Live;
    if orders == map[] {
      assert LiveView(orders) == map[] by {
        NothingLive(orders);
      }
    } else {
      var k :| k in orders && Held(orders, a) == Share(a)(orders[k]) + Sum(orders - {k}, Share(a));
      assert (orders - {k}).Keys < orders.Keys;
      HeldLiveView(orders - {k}, a);
      ShareIgnoresTimestamp(orders[k], a);
      LiveViewWithout(orders, k);
      if Live(orders[k]) {
        SumWithout(LiveView(orders), Share(a), k);
      }
    }
  }

  /** What loads from an agreeing store is reserved for exactly when memory is. */
  lemma LoadedReservedIff(s: Store, m: Memory)
    requires Agrees(s, m) && ValidOrders(m.ledger.orders)
    ensures Reserved(Load(s)) <==> Reserved(m.ledger)
  {
    LoadSeesMemory(s, m);
    var live := LiveView(m.ledger.orders);
    assert ValidOrders(live);
    hide Agrees, Load, LiveView, ValidOrders, Held;
    forall a: string ensures Held(live, a) == Held(m.ledger.orders, a) {
      HeldLiveView(m.ledger.orders, a);
    }
    assert Load(s) == Ledger(m.ledger.balances, live);
  }

  lemma SubmitPlaces(l: Ledger, id: Id, p: Submission)
    requires Submit(l, id, p).Ok?
    ensures Place(l, id, p.request, p.fillTicker) == Submit(l, id, p)
  {
  }

  lemma PlacedIsValid(l: Ledger, id: Id, r: OrderRequest, t: Ticker)
    requires Place(l, id, r, t).Ok? && ValidRequest(r)
    ensures ValidOrder(id, Place(l, id, r, t).value.1)
  {
  }

  // -- when a stale commit loses a reservation -----------------------------

  /** No asset the working copy writes back without having found its row carries a reservation. */
  predicate WritesNoReservedAsset(rows: Rows, keys: set<string>, b: Balances) {
    forall a | a in b && a in rows && a !in keys :: rows[a].used == 0.0
  }

  /** A stale placement is accepted and writes over a row with a reservation that it did not find. */
  predicate LosesReservation(sys: System, step: Step) {
    Stale(sys, step) &&
    var (req, keys) := (sys.inflight[step.q].request, sys.inflight[step.q].phase.keys);
    var placed := Submit(Half(sys.store, keys), req.orderId, req.submission);
    placed.Ok? && !WritesNoReservedAsset(sys.store.rows, keys, placed.value.0.balances)
  }

  lemma SubmitUses(l: Ledger, orderId: Id, p: Submission, a: string)
    requires Submit(l, orderId, p).Ok?
    ensures var (l', o) := Submit(l, orderId, p).value;
            Bal(l'.balances, a).used == Bal(l.balances, a).used + Share(a)(o)
  {
    SubmitPlaces(l, orderId, p);
    hide PaperStores.Submit, PaperLedgers.Place;
    PlaceUses(l, orderId, p.request, p.fillTicker, a);
  }

  lemma SavedUsed(rows: Rows, b: Balances, a: string)
    requires rows != map[]
    ensures Bal(LoadBalances(Save(rows, b)), a).used
            == if a in b then b[a].used else Bal(LoadBalances(rows), a).used
  {
    SavedRows(rows, b);
  }

  /** What the working copy holds reserved of an asset: nothing of one it has not found. */
  lemma FoundUsed(rows: Rows, keys: set<string>, a: string)
    requires keys <= rows.Keys
    ensures Bal(Found(rows, keys), a).used == if a in keys then rows[a].used else 0.0
  {
    if keys == {} {
      FoundAll(rows);
    } else {
      FoundSome(rows, keys);
    }
  }

  lemma OverwrittenAt(s: Store, m: Memory, req: Request, keys: set<string>, a: string)
    requires Agrees(s, m) && Reserved(m.ledger) && FreshNames(m, req) && req.PlaceReq? && s.rows != map[]
    requires keys <= s.rows.Keys && Submit(Half(s, keys), req.orderId, req.submission).Ok?
    ensures var (l, o) := Submit(Half(s, keys), req.orderId, req.submission).value;
            var m' := Overwritten(s, m, req, keys);
            && Bal(m'.ledger.balances, a).used
               == (if a in l.balances then (if a in keys then s.rows[a].used else 0.0) + Share(a)(o)
                   else Bal(m.ledger.balances, a).used)
            && Held(m'.ledger.orders, a) == Bal(m.ledger.balances, a).used + Share(a)(o)
            && (a !in l.balances ==> Share(a)(o) == 0.0)
  {
    hide PaperStores.Submit, Share, PaperStores.Save, Reserved, HandlesFit, OrdersFit, Found, PaperStores.LoadBalances,
         Reserves;
    var (l, o) := Submit(Half(s, keys), req.orderId, req.submission).value;
    HalfSubmit(s, keys, req.orderId, req.submission);
    SubmitUses(Half(s, keys), req.orderId, req.submission, a);
    FoundUsed(s.rows, keys, a);
    SavedUsed(s.rows, l.balances, a);
    assert m.ledger.orders - {req.orderId} == m.ledger.orders;
    SumUpdate(m.ledger.orders, Share(a), req.orderId, o);
    ReservedAt(m.ledger, a);
  }

  lemma ReservedAt(l: Ledger, a: string)
    requires Reserved(l)
    ensures Bal(l.balances, a).used == Held(l.orders, a)
  {
  }

  lemma UsedMatchesIff(rows: Rows, keys: set<string>, b: Balances, b': Balances, orders': Orders, o: Order)
    requires rows != map[]
    requires forall a: string ::
      && Bal(b', a).used == (if a in b then (if a in keys && a in rows then rows[a].used else 0.0) + Share(a)(o)
                             else Bal(LoadBalances(rows), a).used)
      && Held(orders', a) == Bal(LoadBalances(rows), a).used + Share(a)(o)
      && (a !in b ==> Share(a)(o) == 0.0)
    ensures (forall a: string :: Bal(b', a).used == Held(orders', a)) <==> WritesNoReservedAsset(rows, keys, b)
  {
    hide Share, Held;
    if forall a: string :: Bal(b', a).used == Held(orders', a) {
      forall a | a in b && a in rows && a !in keys ensures rows[a].used == 0.0 {
        assert Bal(b', a).used == Held(orders', a);
      }
    }
  }

  lemma OverwrittenIsOrderly(s: Store, m: Memory, req: Request, keys: set<string>)
    requires Agrees(s, m) && ValidOrders(m.ledger.orders) && ValidPlacement(req) && req.PlaceReq? && s.rows != map[]
    requires Submit(Half(s, keys), req.orderId, req.submission).Ok?
    ensures var l := Overwritten(s, m, req, keys).ledger; Labelled(l.balances) && ValidOrders(l.orders)
  {
    SubmitPlaces(Half(s, keys), req.orderId, req.submission);
    PlacedIsValid(Half(s, keys), req.orderId, req.submission.request, req.submission.fillTicker);
    SavedRows(s.rows, Submit(Half(s, keys), req.orderId, req.submission).value.0.balances);
    hide PaperStores.Submit, PaperLedgers.Place, Half;
  }

  /** In any state an accepted stale placement keeps the reservations exact exactly when no row
      it writes without having found it carries one. */
  lemma OverwrittenReservedIff(s: Store, m: Memory, req: Request, keys: set<string>)
    requires Agrees(s, m) && Reserved(m.ledger) && FreshNames(m, req) && ValidPlacement(req) && req.PlaceReq?
    requires s.rows != map[] && keys <= s.rows.Keys && Submit(Half(s, keys), req.orderId, req.submission).Ok?
    ensures Reserved(Overwritten(s, m, req, keys).ledger)
            <==> WritesNoReservedAsset(s.rows, keys, Submit(Half(s, keys), req.orderId, req.submission).value.0.balances)
  {
    var (l, o) := Submit(Half(s, keys), req.orderId, req.submission).value;
    var after := Overwritten(s, m, req, keys).ledger;
    OverwrittenIsOrderly(s, m, req, keys);
    assert LoadBalances(s.rows) == m.ledger.balances;
    hide PaperStores.Submit, Share, Held, Overwritten, PaperStores.LoadBalances, HandlesFit, OrdersFit, ValidOrders, Half;
    forall a: string
      ensures && Bal(after.balances, a).used
                 == (if a in l.balances then (if a in keys && a in s.rows then s.rows[a].used else 0.0) + Share(a)(o)
                     else Bal(LoadBalances(s.rows), a).used)
              && Held(after.orders, a) == Bal(LoadBalances(s.rows), a).used + Share(a)(o)
              && (a !in l.balances ==> Share(a)(o) == 0.0)
    {
      OverwrittenAt(s, m, req, keys, a);
    }
    UsedMatchesIff(s.rows, keys, l.balances, after.balances, after.orders, o);
  }

  lemma InMemoryKeepsReserved(m: Memory, req: Request)
    requires Reserved(m.ledger) && ValidPlacement(req) && FreshNames(m, req)
    ensures Reserved(InMemory(m, req).0.ledger)
  {
    hide Reserved;
    match req
    case PlaceReq(recordId, orderId, p) =>
      if Submit(m.ledger, orderId, p).Ok? {
        SubmitPlaces(m.ledger, orderId, p);
        PlaceKeepsReserved(m.ledger, orderId, p.request, p.fillTicker);
      }
    case CancelReq(recordId) =>
      if recordId in m.handles {
        CancelKeepsReserved(m.ledger, m.handles[recordId]);
      }
  }

  /** From any reachable state a step keeps the reservations exact unless it is a stale commit
      over a reserved asset. */
  lemma StepReservedIff(sys: System, m: Memory, step: Step)
    requires Inv(sys, m) && AllValid(sys) && Reserved(m.ledger) && Enabled(sys, step)
    ensures Reserved(After(sys, m, step).ledger) <==> !LosesReservation(sys, step)
  {
    if step.Commit? {
      var req := sys.inflight[step.q].request;
      assert InFlightFits(sys, m, step.q) && ValidPlacement(req);
      var keys := sys.inflight[step.q].phase.keys;
      hide Reserved, InMemory, Overwritten, PaperStores.Submit, Agrees, Load, Half, Found;
      if Stale(sys, step) {
        if Submit(Half(sys.store, keys), req.orderId, req.submission).Ok? {
          OverwrittenReservedIff(sys.store, m, req, keys);
        } else {
          assert After(sys, m, step) == m by {
            RefusedOverwritesNothing(sys.store, m, req, keys);
          }
        }
      } else {
        InMemoryKeepsReserved(m, req);
      }
    }
  }

  lemma RefusedOverwritesNothing(s: Store, m: Memory, req: Request, keys: set<string>)
    requires req.PlaceReq? && Submit(Half(s, keys), req.orderId, req.submission).Err?
    ensures Overwritten(s, m, req, keys) == m
  {
  }

  // -- reservations along a run --------------------------------------------

  /** The stored reservations are exactly those of the stored live orders, after every step. */
  ghost predicate ReservedThroughout(sys: System, steps: seq<Step>)
    requires Runs(sys, steps)
    decreases |steps|
  {
    Reserved(Load(sys.store)) && (steps != [] ==> ReservedThroughout(Next(sys, steps[0]), steps[1..]))
  }

  ghost predicate NoReservationLost(sys: System, steps: seq<Step>)
    requires Runs(sys, steps)
    decreases |steps|
  {
    steps != [] ==> !LosesReservation(sys, steps[0]) && NoReservationLost(Next(sys, steps[0]), steps[1..])
  }

  lemma {:induction false} ReservedThroughoutIff(sys: System, m: Memory, steps: seq<Step>)
    requires Inv(sys, m) && AllValid(sys) && Reserved(m.ledger) && Runs(sys, steps)
    ensures ReservedThroughout(sys, steps) <==> NoReservationLost(sys, steps)
    decreases |steps|
  {
    StoreAgrees(sys, m);
    LoadedReservedIff(sys.store, m);
    if steps != [] {
      var (next, m') := (Next(sys, steps[0]), After(sys, m, steps[0]));
      StepKeepsInv(sys, m, steps[0]);
      StepKeepsAllValid(sys, steps[0]);
      StepReservedIff(sys, m, steps[0]);
      StepKeepsOrders(sys, m, steps[0]);
      StoreAgrees(next, m');
      LoadedReservedIff(next.store, m');
      hide Inv, AllValid, Reserved, Enabled, Next, After, Load, LosesReservation, ValidOrders;
      if Reserved(m'.ledger) {
        ReservedThroughoutIff(next, m', steps[1..]);
      }
    }
  }

  lemma InMemoryKeepsOrders(m: Memory, req: Request)
    requires ValidOrders(m.ledger.orders) && ValidPlacement(req)
    ensures ValidOrders(InMemory(m, req).0.ledger.orders)
  {
    hide PaperLedgers.Place, PaperLedgers.Reservation, PaperLedgers.Shift, PaperStores.Submit;
    if req.PlaceReq? && Submit(m.ledger, req.orderId, req.submission).Ok? {
      SubmitPlaces(m.ledger, req.orderId, req.submission);
      PlacedIsValid(m.ledger, req.orderId, req.submission.request, req.submission.fillTicker);
      PlaceOrders(m.ledger, req.orderId, req.submission.request, req.submission.fillTicker);
    }
  }

  lemma OverwrittenKeepsOrders(s: Store, m: Memory, req: Request, keys: set<string>)
    requires ValidOrders(m.ledger.orders) && ValidPlacement(req)
    ensures ValidOrders(Overwritten(s, m, req, keys).ledger.orders)
  {
    hide PaperLedgers.Place, Half, PaperStores.Save, PaperStores.LoadBalances, PaperStores.Submit;
    if req.PlaceReq? && Submit(Half(s, keys), req.orderId, req.submission).Ok? {
      SubmitPlaces(Half(s, keys), req.orderId, req.submission);
      PlacedIsValid(Half(s, keys), req.orderId, req.submission.request, req.submission.fillTicker);
    }
  }

  lemma StepKeepsOrders(sys: System, m: Memory, step: Step)
    requires Inv(sys, m) && AllValid(sys) && ValidOrders(m.ledger.orders) && Enabled(sys, step)
    ensures ValidOrders(After(sys, m, step).ledger.orders)
  {
    hide Inv, Load, InMemory, Overwritten, ValidOrders;
    if step.Commit? {
      var (req, phase) := (sys.inflight[step.q].request, sys.inflight[step.q].phase);
      assert ValidPlacement(req);
      InMemoryKeepsOrders(m, req);
      OverwrittenKeepsOrders(sys.store, m, req, phase.keys);
    }
  }

  lemma PlaceOrders(l: Ledger, id: Id, r: OrderRequest, t: Ticker)
    requires Place(l, id, r, t).Ok?
    ensures var (l', o) := Place(l, id, r, t).value; l'.orders == l.orders[id := o]
  {
  }

  /** From first use on, along every interleaving, the stored reservations are exact after
      every step if and only if no stale commit writes over a reserved asset. */
  lemma EveryCommitIsReservedIff(steps: seq<Step>)
    requires Runs(UNUSED, steps)
    ensures ReservedThroughout(UNUSED, steps) <==> NoReservationLost(UNUSED, steps)
  {
    FreshBacked();
    UnusedInv();
    ReservedThroughoutIff(UNUSED, EMPTY_MEMORY, steps);
  }

  // -- nothing goes below zero ---------------------------------------------

  ghost predicate NonNegative(b: Balances) {
    forall a | a in b :: b[a].asset == a && b[a].free >= 0.0 && b[a].used >= 0.0
  }

  lemma PlaceStaysNonNegative(l: Ledger, id: Id, r: OrderRequest, t: Ticker)
    requires NonNegative(l.balances) && ValidRequest(r) && t.last >= 0.0 && Place(l, id, r, t).Ok?
    ensures NonNegative(Place(l, id, r, t).value.0.balances)
  {
    var (l', o) := Place(l, id, r, t).value;
    if Overdraws(l.balances, r, t) {
      OverdrawsOnlyBelowZero(l, id, r, t);
    }
    PlaceSolventIff(l, id, r, t);
    PlacedIsValid(l, id, r, t);
    forall a | a in l'.balances ensures l'.balances[a].used >= 0.0 {
      PlaceUses(l, id, r, t, a);
      ShareNonNegative(o, id, a);
      assert Bal(l.balances, a).used >= 0.0;
    }
    hide PaperLedgers.Place;
  }

  lemma ShareNonNegative(o: Order, id: Id, a: string)
    requires ValidOrder(id, o)
    ensures Share(a)(o) >= 0.0
  {
    ReservationNonNegative(o);
  }

  lemma CancelStaysNonNegative(l: Ledger, id: Id)
    requires NonNegative(l.balances) && ValidOrders(l.orders) && Cancel(l, id).Ok?
    ensures NonNegative(Cancel(l, id).value.0.balances)
  {
    if Live(l.orders[id]) {
      ReservationNonNegative(l.orders[id]);
    }
    hide PaperLedgers.Reservation;
  }

  predicate Priced(req: Request) {
    req.PlaceReq? ==> req.submission.fillTicker.last >= 0.0
  }

  predicate AllPriced(sys: System) {
    forall q | q in sys.inflight :: Priced(sys.inflight[q].request)
  }

  /** Every placement of the run meets a ticker that is not negative. */
  predicate PricedSteps(steps: seq<Step>) {
    forall step | step in steps && step.FindForPlace? :: step.submission.fillTicker.last >= 0.0
  }

  lemma SavedNonNegative(rows: Rows, b: Balances)
    requires NonNegative(LoadBalances(rows)) && NonNegative(b) && rows != map[]
    ensures NonNegative(LoadBalances(Save(rows, b)))
  {
    SavedRows(rows, b);
    var saved := LoadBalances(Save(rows, b));
    forall a | a in saved ensures saved[a].asset == a && saved[a].free >= 0.0 && saved[a].used >= 0.0 {
      assert a in b || a in LoadBalances(rows);
    }
  }

  lemma FoundNonNegative(rows: Rows, keys: set<string>)
    requires NonNegative(LoadBalances(rows)) && keys <= rows.Keys
    ensures NonNegative(Found(rows, keys))
  {
    if keys == {} {
      FoundAll(rows);
    } else {
      FoundSome(rows, keys);
      FoundLabelled(rows, keys);
    }
  }

  lemma OverwrittenStaysNonNegative(s: Store, m: Memory, req: Request, keys: set<string>)
    requires Agrees(s, m) && NonNegative(m.ledger.balances) && s.rows != map[] && keys <= s.rows.Keys
    requires ValidPlacement(req) && Priced(req)
    ensures NonNegative(Overwritten(s, m, req, keys).ledger.balances)
  {
    if req.PlaceReq? && Submit(Half(s, keys), req.orderId, req.submission).Ok? {
      FoundNonNegative(s.rows, keys);
      SubmitPlaces(Half(s, keys), req.orderId, req.submission);
      PlaceStaysNonNegative(Half(s, keys), req.orderId, req.submission.request, req.submission.fillTicker);
      SavedNonNegative(s.rows, Submit(Half(s, keys), req.orderId, req.submission).value.0.balances);
    }
    hide PaperStores.Submit, PaperStores.Save, PaperStores.LoadBalances, PaperLedgers.Place, HandlesFit, OrdersFit, Found;
  }

  lemma StepStaysNonNegative(sys: System, m: Memory, step: Step)
    requires Inv(sys, m) && AllValid(sys) && AllPriced(sys) && Enabled(sys, step)
    requires ValidOrders(m.ledger.orders) && NonNegative(m.ledger.balances)
    ensures NonNegative(After(sys, m, step).ledger.balances)
  {
    StoreAgrees(sys, m);
    if step.Commit? {
      var req := sys.inflight[step.q].request;
      assert ValidPlacement(req) && Priced(req);
      hide Inv, NonNegative, Agrees, PaperLedgers.Place, PaperLedgers.Cancel, Overwritten;
      if Stale(sys, step) {
        assert InFlightFits(sys, m, step.q);
        OverwrittenStaysNonNegative(sys.store, m, req, sys.inflight[step.q].phase.keys);
      } else if req.PlaceReq? && Submit(m.ledger, req.orderId, req.submission).Ok? {
        SubmitPlaces(m.ledger, req.orderId, req.submission);
        PlaceStaysNonNegative(m.ledger, req.orderId, req.submission.request, req.submission.fillTicker);
      } else if req.CancelReq? && req.recordId in m.handles && Cancel(m.ledger, m.handles[req.recordId]).Ok? {
        CancelStaysNonNegative(m.ledger, m.handles[req.recordId]);
      }
    }
  }

  lemma StepKeepsPriced(sys: System, steps: seq<Step>)
    requires AllPriced(sys) && PricedSteps(steps) && steps != [] && Enabled(sys, steps[0])
    ensures AllPriced(Next(sys, steps[0])) && PricedSteps(steps[1..])
  {
    assert steps[0] in steps;
    hide Written, Load;
  }

  /** No stored amount is ever below zero, whatever races. */
  ghost predicate NonNegativeThroughout(sys: System, steps: seq<Step>)
    requires Runs(sys, steps)
    decreases |steps|
  {
    && NonNegative(Load(sys.store).balances)
    && (steps != [] ==> NonNegativeThroughout(Next(sys, steps[0]), steps[1..]))
  }

  lemma LoadedBalances(s: Store, m: Memory)
    requires Agrees(s, m)
    ensures Load(s).balances == m.ledger.balances
  {
  }

  lemma {:induction false} StaysNonNegative(sys: System, m: Memory, steps: seq<Step>)
    requires Inv(sys, m) && AllValid(sys) && AllPriced(sys) && Runs(sys, steps) && PricedSteps(steps)
    requires ValidOrders(m.ledger.orders) && NonNegative(m.ledger.balances)
    ensures NonNegativeThroughout(sys, steps)
    decreases |steps|
  {
    StoreAgrees(sys, m);
    LoadedBalances(sys.store, m);
    if steps != [] {
      StepKeepsInv(sys, m, steps[0]);
      StepKeepsAllValid(sys, steps[0]);
      StepKeepsOrders(sys, m, steps[0]);
      StepStaysNonNegative(sys, m, steps[0]);
      StepKeepsPriced(sys, steps);
      hide Inv, AllValid, AllPriced, PricedSteps, Enabled, Next, After, Load, ValidOrders, NonNegative;
      StaysNonNegative(Next(sys, steps[0]), After(sys, m, steps[0]), steps[1..]);
    }
  }

  /** With prices that are not negative, the whole backing invariant holds after every step of
      every interleaving if and only if no stale commit writes over a reserved asset. */
  lemma EveryCommitIsBackedIff(steps: seq<Step>)
    requires Runs(UNUSED, steps) && PricedSteps(steps)
    ensures NonNegativeThroughout(UNUSED, steps)
    ensures ReservedThroughout(UNUSED, steps) <==> NoReservationLost(UNUSED, steps)
  {
    UnusedInv();
    StaysNonNegative(UNUSED, EMPTY_MEMORY, steps);
    EveryCommitIsReservedIff(steps);
  }

  // -- accounts whose rows are all there ------------------------------------

  /** A placement touches only assets that have a row. */
  predicate TouchesOnly(req: Request, keys: set<string>) {
    req.PlaceReq? ==> Touched(req.orderId, req.submission.request, req.submission.fillTicker) <= keys
  }

  /** Everybody under way has found all rows, and nobody needs a new one. */
  predicate UpToDate(sys: System) {
    && sys.store.rows != map[]
    && forall q | q in sys.inflight ::
      && (!sys.inflight[q].phase.Seen? ==> sys.inflight[q].phase.keys == sys.store.rows.Keys)
      && TouchesOnly(sys.inflight[q].request, sys.store.rows.Keys)
  }

  /** The run asks only for placements on assets that have a row when it begins. */
  predicate KnownAssets(keys: set<string>, steps: seq<Step>) {
    forall step | step in steps && step.FindForPlace? ::
      TouchesOnly(PlaceReq(step.recordId, step.orderId, step.submission), keys)
  }

  ghost predicate NeverStale(sys: System, steps: seq<Step>)
    requires Runs(sys, steps)
    decreases |steps|
  {
    steps != [] ==> !Stale(sys, steps[0]) && NeverStale(Next(sys, steps[0]), steps[1..])
  }

  lemma PlaceAddsTouched(s: Store, req: Request)
    requires req.PlaceReq? && TouchesOnly(req, s.rows.Keys) && s.rows != map[]
    ensures Persisted(s, req).0.rows.Keys == s.rows.Keys
  {
    var (id, p) := (req.orderId, req.submission);
    assert Labelled(Load(s).balances) && Load(s).balances.Keys == s.rows.Keys;
    hide Load, Touched, PaperLedgers.Place, Moved;
    if Submit(Load(s), id, p).Ok? {
      SubmitPlaces(Load(s), id, p);
      PlaceMoves(Load(s), id, p.request, p.fillTicker);
      MovedKeys(Load(s).balances, Submit(Load(s), id, p).value.0.balances, id, p.request, p.fillTicker);
      SavedRows(s.rows, Submit(Load(s), id, p).value.0.balances);
    }
    hide PaperStores.Submit, PaperStores.Save;
  }

  lemma MovedKeys(b: Balances, b': Balances, id: Id, r: OrderRequest, t: Ticker)
    requires Moved(b, b', id, r, t)
    ensures b'.Keys == b.Keys + Touched(id, r, t)
  {
  }

  lemma CancelAddsNothing(s: Store, m: Memory, recordId: Id)
    requires Agrees(s, m) && ReservesKnown(m.ledger) && s.rows != map[] && recordId in m.handles
    ensures Persisted(s, CancelReq(recordId)).0.rows.Keys == s.rows.Keys
  {
    CancelAgrees(s, m, recordId);
    LoadedRows(s, m);
    var s' := Persisted(s, CancelReq(recordId)).0;
    var m' := InMemory(m, CancelReq(recordId)).0;
    PersistedGrows(s, CancelReq(recordId));
    assert s'.rows != map[];
    LoadedRows(s', m');
    assert m'.ledger.balances.Keys == m.ledger.balances.Keys by {
      CancelKeepsKeys(m, recordId);
    }
    hide Agrees, Persisted, InMemory, ReservesKnown;
  }

  lemma CancelKeepsKeys(m: Memory, recordId: Id)
    requires ReservesKnown(m.ledger)
    ensures InMemory(m, CancelReq(recordId)).0.ledger.balances.Keys == m.ledger.balances.Keys
  {
    hide PaperLedgers.SplitSymbol, PaperLedgers.Cost;
    if recordId in m.handles && m.handles[recordId] in m.ledger.orders {
      assert Reserves(m.ledger.orders[m.handles[recordId]]) in m.ledger.balances;
    }
  }

  lemma CommitKeepsKeys(sys: System, m: Memory, q: Id)
    requires Inv(sys, m) && UpToDate(sys) && Enabled(sys, Commit(q))
    ensures !Stale(sys, Commit(q)) && Next(sys, Commit(q)).store.rows.Keys == sys.store.rows.Keys
  {
    var req := sys.inflight[q].request;
    assert InFlightFits(sys, m, q) && TouchesOnly(req, sys.store.rows.Keys);
    StoreAgrees(sys, m);
    CurrentCommitKeepsStoreFits(sys, m, q);
    hide Written, Agrees, Load, ReservesKnown, TouchesOnly, Persisted;
    match req
    case PlaceReq(_, _, _) => PlaceAddsTouched(sys.store, req);
    case CancelReq(recordId) => CancelAddsNothing(sys.store, m, recordId);
  }

  lemma StaysUpToDate(sys: System, m: Memory, step: Step)
    requires Inv(sys, m) && UpToDate(sys) && Enabled(sys, step)
    requires step.FindForPlace? ==> TouchesOnly(PlaceReq(step.recordId, step.orderId, step.submission), sys.store.rows.Keys)
    ensures UpToDate(Next(sys, step)) && !Stale(sys, step) && Next(sys, step).store.rows.Keys == sys.store.rows.Keys
  {
    hide Inv, Written, Load, After, TouchesOnly, Copy, UpToDate;
    StepKeepsInv(sys, m, step);
    if step.Commit? {
      CommitKeepsKeys(sys, m, step.q);
    }
    SameKeysUpToDate(sys, step);
  }

  lemma SameKeysUpToDate(sys: System, step: Step)
    requires UpToDate(sys) && Enabled(sys, step) && Next(sys, step).store.rows.Keys == sys.store.rows.Keys
    requires step.FindForPlace? ==> TouchesOnly(PlaceReq(step.recordId, step.orderId, step.submission), sys.store.rows.Keys)
    ensures UpToDate(Next(sys, step))
  {
    hide Written, Load, TouchesOnly, Copy;
    var next := Next(sys, step);
    var a :| a in sys.store.rows;
    assert a in next.store.rows.Keys;
    forall q | q in next.inflight
      ensures !next.inflight[q].phase.Seen? ==> next.inflight[q].phase.keys == next.store.rows.Keys
      ensures TouchesOnly(next.inflight[q].request, next.store.rows.Keys)
    {
      assert q in sys.inflight ==> TouchesOnly(sys.inflight[q].request, sys.store.rows.Keys);
      assert step.ReadRecord? ==> TouchesOnly(CancelReq(step.recordId), sys.store.rows.Keys) by {
        CancelsTouchNothing(step, sys.store.rows.Keys);
      }
    }
  }

  lemma CancelsTouchNothing(step: Step, keys: set<string>)
    ensures step.ReadRecord? ==> TouchesOnly(CancelReq(step.recordId), keys)
  {
  }

  /** On an account whose rows are all there, nothing is ever stale and nothing is ever lost. */
  lemma {:induction false} UpToDateNeverStale(sys: System, m: Memory, steps: seq<Step>)
    requires Inv(sys, m) && UpToDate(sys) && Runs(sys, steps) && KnownAssets(sys.store.rows.Keys, steps)
    ensures NeverStale(sys, steps) && NoReservationLost(sys, steps)
    decreases |steps|
  {
    hide Inv, UpToDate, Enabled, Next, After, Stale, TouchesOnly;
    if steps != [] {
      assert steps[0] in steps;
      StaysUpToDate(sys, m, steps[0]);
      StepKeepsInv(sys, m, steps[0]);
      assert !LosesReservation(sys, steps[0]);
      UpToDateNeverStale(Next(sys, steps[0]), After(sys, m, steps[0]), steps[1..]);
    }
  }

  // -- the first-use race --------------------------------------------------

  const RESTING_BID := Submission(
    OrderRequest("BTC" + ['/'] + QUOTE, Buy, Limit, 100.0, Some(1.0), false, None), None,
    Ticker(2.0, None), Ticker(2.0, None))

  lemma RestingBidHolds(id: Id)
    ensures Submit(FRESH, id, RESTING_BID).Ok?
    ensures Bal(Submit(FRESH, id, RESTING_BID).value.0.balances, QUOTE).used > 0.0
  {
    SplitPair("BTC", QUOTE);
    var p := RESTING_BID;
    assert SplitSymbol(p.request.symbol, QUOTE) == ("BTC", QUOTE);
    hide PaperLedgers.SplitSymbol;
    assert Cost(100.0, 1.0) == 100.0;
    assert QuoteEquity(FRESH.balances, p.request.symbol) == STARTING_BALANCE;
    assert Check(FRESH.balances, p).Ok?;
  }

  const RACE := [FindForPlace(1, 1, 2, RESTING_BID), TakeLock(1), FindForPlace(2, 3, 4, RESTING_BID), TakeLock(2),
                 Commit(1), Commit(2)]

  lemma EmptyCopy(s: Store)
    ensures Half(s, {}) == FRESH && Copy(EMPTY_STORE, {}) == FRESH
  {
    FoundAll(s.rows);
    FoundAll(EMPTY_STORE.rows);
    LoadSeesMemory(EMPTY_STORE, EMPTY_MEMORY);
    assert EMPTY_STORE.rows.Keys == {} && LiveView(map[]) == map[];
  }

  lemma BothLoad() returns (s1: System, s2: System, s3: System, s4: System)
    ensures Enabled(UNUSED, RACE[0]) && s1 == Next(UNUSED, RACE[0]) && Enabled(s1, RACE[1]) && s2 == Next(s1, RACE[1])
    ensures Enabled(s2, RACE[2]) && s3 == Next(s2, RACE[2]) && Enabled(s3, RACE[3]) && s4 == Next(s3, RACE[3])
    ensures s4 == System(EMPTY_STORE, None, map[1 := InFlight(PlaceReq(1, 2, RESTING_BID), Loaded(FRESH, {})),
                                                2 := InFlight(PlaceReq(3, 4, RESTING_BID), Loaded(FRESH, {}))],
                         {1, 2, 3, 4})
  {
    EmptyCopy(EMPTY_STORE);
    hide Copy, Half;
    assert EMPTY_STORE.rows.Keys == {};
    s1 := Next(UNUSED, RACE[0]);
    s2 := Next(s1, RACE[1]);
    assert s2.inflight == map[1 := InFlight(PlaceReq(1, 2, RESTING_BID), Loaded(FRESH, {}))];
    s3 := Next(s2, RACE[2]);
    s4 := Next(s3, RACE[3]);
  }

  lemma FirstBidIsHeld(s: Store)
    requires s == Written(EMPTY_STORE, PlaceReq(1, 2, RESTING_BID), FRESH)
    ensures QUOTE in s.rows && s.rows[QUOTE].used > 0.0
  {
    RestingBidHolds(2);
    SubmitGrows(FRESH, 2, RESTING_BID);
    hide PaperStores.Submit, PaperStores.RecordOf;
    assert QUOTE in FRESH.balances;
  }

  lemma SecondBidOverwrites(sys: System)
    requires 2 in sys.inflight && sys.inflight[2] == InFlight(PlaceReq(3, 4, RESTING_BID), Loaded(FRESH, {}))
    requires QUOTE in sys.store.rows && sys.store.rows[QUOTE].used > 0.0
    ensures LosesReservation(sys, Commit(2))
  {
    RestingBidHolds(4);
    EmptyCopy(sys.store);
    SubmitGrows(FRESH, 4, RESTING_BID);
    hide PaperStores.Submit, Half;
    assert QUOTE in FRESH.balances;
  }

  lemma LossPrecedes(sys: System, steps: seq<Step>)
    requires steps != [] && Enabled(sys, steps[0]) && ValidStep(steps[0]) && Runs(Next(sys, steps[0]), steps[1..])
    requires LosesReservation(sys, steps[0]) || !NoReservationLost(Next(sys, steps[0]), steps[1..])
    ensures Runs(sys, steps) && !NoReservationLost(sys, steps)
  {
  }

  lemma NothingLeft(sys: System, steps: seq<Step>)
    requires steps == []
    ensures Runs(sys, steps)
  {
  }

  lemma LossAtTheEnd(s4: System, s5: System, steps: seq<Step>)
    requires |steps| == 2 && ValidStep(steps[0]) && ValidStep(steps[1])
    requires Enabled(s4, steps[0]) && s5 == Next(s4, steps[0]) && Enabled(s5, steps[1]) && LosesReservation(s5, steps[1])
    ensures Runs(s4, steps) && !NoReservationLost(s4, steps)
  {
    hide Next, Enabled, LosesReservation, ValidStep, Runs, NoReservationLost;
    NothingLeft(Next(s5, steps[1]), steps[1..][1..]);
    LossPrecedes(s5, steps[1..]);
    LossPrecedes(s4, steps);
  }

  lemma SixStepsLose(s1: System, s2: System, s3: System, s4: System, steps: seq<Step>)
    requires |steps| == 6 && forall step | step in steps :: ValidStep(step)
    requires Enabled(UNUSED, steps[0]) && s1 == Next(UNUSED, steps[0]) && Enabled(s1, steps[1]) && s2 == Next(s1, steps[1])
    requires Enabled(s2, steps[2]) && s3 == Next(s2, steps[2]) && Enabled(s3, steps[3]) && s4 == Next(s3, steps[3])
    requires Runs(s4, steps[4..]) && !NoReservationLost(s4, steps[4..])
    ensures Runs(UNUSED, steps) && !NoReservationLost(UNUSED, steps)
  {
    hide Next, Enabled, LosesReservation, ValidStep, Runs, NoReservationLost, UNUSED;
    assert steps[1..][1..] == steps[2..] && steps[2..][1..] == steps[3..] && steps[3..][1..] == steps[4..];
    LossPrecedes(s3, steps[3..]);
    LossPrecedes(s2, steps[2..]);
    LossPrecedes(s1, steps[1..]);
    LossPrecedes(UNUSED, steps);
  }

  lemma RaceEnds(s4: System) returns (s5: System)
    requires s4 == System(EMPTY_STORE, None, map[1 := InFlight(PlaceReq(1, 2, RESTING_BID), Loaded(FRESH, {})),
                                                 2 := InFlight(PlaceReq(3, 4, RESTING_BID), Loaded(FRESH, {}))],
                          {1, 2, 3, 4})
    ensures Enabled(s4, Commit(1)) && s5 == Next(s4, Commit(1))
    ensures Enabled(s5, Commit(2)) && LosesReservation(s5, Commit(2))
  {
    hide Written, LosesReservation, RESTING_BID;
    s5 := Next(s4, Commit(1));
    FirstBidIsHeld(s5.store);
    SecondBidOverwrites(s5);
  }

  lemma RaceIsValid()
    ensures PricedSteps(RACE) && forall step | step in RACE :: ValidStep(step)
    ensures |RACE| == 6 && RACE[4..] == [Commit(1), Commit(2)]
  {
  }

  /** Two first placements that both load before either commits: the second commit
      overwrites the first one's reservation, although its order still rests. */
  lemma FirstUseRaceLosesReservation()
    ensures Runs(UNUSED, RACE) && PricedSteps(RACE) && !ReservedThroughout(UNUSED, RACE)
  {
    hide Next, Enabled, LosesReservation, ReservedThroughout, Load, ValidStep, Runs, NoReservationLost, PricedSteps,
         RESTING_BID, UNUSED, Written, RACE;
    RaceIsValid();
    var s1, s2, s3, s4 := BothLoad();
    var s5 := RaceEnds(s4);
    assert ValidStep(Commit(1)) && ValidStep(Commit(2)) by {
      CommitsAreValid();
    }
    LossAtTheEnd(s4, s5, RACE[4..]);
    SixStepsLose(s1, s2, s3, s4, RACE);
    EveryCommitIsReservedIff(RACE);
  }

  lemma CommitsAreValid()
    ensures ValidStep(Commit(1)) && ValidStep(Commit(2))
  {
  }
}
