/** What every paper operation keeps: reservations backed exactly, totals moved
    only by fills, and nothing lost but fees. */
module PaperInvariants {
  import opened Models
  import opened PaperLedgers

  // -- sums over a map ---------------------------------------------------

  ghost function Sum<K, V>(m: map<K, V>, f: V -> real): real
    decreases m.Keys
  {
    if m == map[] then 0.0
    else
      var k :| k in m;
      assert (m - {k}).Keys < m.Keys;
      f(m[k]) + Sum(m - {k}, f)
  }

  /** Any key may be taken out of the sum first. */
  lemma {:induction false} SumWithout<K, V>(m: map<K, V>, f: V -> real, k: K)
    requires k in m
    ensures Sum(m, f) == f(m[k]) + Sum(m - {k}, f)
    decreases m.Keys
  {
    var j :| j in m && Sum(m, f) == f(m[j]) + Sum(m - {j}, f);
    if j != k {
      assert (m - {j}).Keys < m.Keys && (m - {k}).Keys < m.Keys;
      assert m - {j} - {k} == m - {k} - {j};
      SumWithout(m - {j}, f, k);
      SumWithout(m - {k}, f, j);
    }
  }

  lemma SumUpdate<K, V>(m: map<K, V>, f: V -> real, k: K, v: V)
    ensures Sum(m[k := v], f) == Sum(m - {k}, f) + f(v)
  {
    SumWithout(m[k := v], f, k);
    assert m[k := v] - {k} == m - {k};
  }

  lemma {:induction false} SumNonNegative<K, V>(m: map<K, V>, f: V -> real)
    requires forall k | k in m :: f(m[k]) >= 0.0
    ensures Sum(m, f) >= 0.0
    decreases m.Keys
  {
    if m != map[] {
      var k :| k in m && Sum(m, f) == f(m[k]) + Sum(m - {k}, f);
      assert (m - {k}).Keys < m.Keys;
      SumNonNegative(m - {k}, f);
    }
  }

  lemma {:induction false} SumZero<K, V>(m: map<K, V>, f: V -> real)
    requires forall k | k in m :: f(m[k]) == 0.0
    ensures Sum(m, f) == 0.0
    decreases m.Keys
  {
    if m != map[] {
      var k :| k in m && Sum(m, f) == f(m[k]) + Sum(m - {k}, f);
      assert (m - {k}).Keys < m.Keys;
      SumZero(m - {k}, f);
    }
  }

  // -- the backing invariant ---------------------------------------------

  predicate Live(o: Order) { o.status in {Open, PartiallyFilled} }

  /** How much of `asset` an order holds: nothing unless it is live. */
  function Share(asset: string): Order -> real {
    (o: Order) => if Live(o) && Reservation(o).0 == asset then Reservation(o).1 else 0.0
  }

  /** The reservations all live orders hold on `asset`. */
  ghost function Held(orders: Orders, asset: string): real {
    Sum(orders, Share(asset))
  }

  /** What the order schema accepts: a positive amount, and a positive price if any. */
  predicate ValidRequest(r: OrderRequest) {
    r.amount > 0.0 && (r.price.Some? ==> r.price.value > 0.0)
  }

  predicate ValidOrder(id: Id, o: Order) {
    && o.id == id && o.isPaper
    && o.amount > 0.0 && (o.price.Some? ==> o.price.value > 0.0)
    && o.status in {Open, Filled, Canceled}
  }

  ghost predicate Labelled(b: Balances) {
    forall a | a in b :: b[a].asset == a
  }

  ghost predicate Solvent(b: Balances) {
    forall a | a in b :: b[a].asset == a && b[a].free >= 0.0
  }

  predicate ValidOrders(orders: Orders) {
    forall id | id in orders :: ValidOrder(id, orders[id])
  }

  /** `used` is exactly what the live orders reserve. */
  ghost predicate Reserved(l: Ledger) {
    && Labelled(l.balances) && ValidOrders(l.orders)
    && (forall a: string :: Bal(l.balances, a).used == Held(l.orders, a))
  }

  /** And `free` is never negative. */
  ghost predicate Backed(l: Ledger) {
    Reserved(l) && Solvent(l.balances)
  }

  lemma ReservationNonNegative(o: Order)
    requires o.amount > 0.0 && (o.price.Some? ==> o.price.value > 0.0)
    ensures Reservation(o).1 >= 0.0
  {
  }

  /** A live order's reservation is always fully covered by `used`. */
  lemma LiveReservationCovered(l: Ledger, id: Id)
    requires Reserved(l) && id in l.orders && Live(l.orders[id])
    ensures 0.0 <= Reservation(l.orders[id]).1 <= Bal(l.balances, Reservation(l.orders[id]).0).used
  {
    var o := l.orders[id];
    var a := Reservation(o).0;
    ReservationNonNegative(o);
    SumWithout(l.orders, Share(a), id);
    forall k | k in l.orders - {id} ensures Share(a)((l.orders - {id})[k]) >= 0.0 {
      ReservationNonNegative(l.orders[k]);
    }
    SumNonNegative(l.orders - {id}, Share(a));
    assert Bal(l.balances, a).used == Held(l.orders, a);
  }

  lemma FreshBacked()
    ensures Backed(FRESH)
  {
  }

  /** Orders fill exactly when they are market orders or marketable limits that may take,
      and then always at the last price: never worse than the limit or the market. */
  lemma FillsAtLast(r: OrderRequest, t: Ticker)
    ensures FillPrice(r, t).Some? <==>
      || r.kind.Market?
      || (r.kind.Limit? && r.price.Some? && !r.postOnly
          && if r.side.Buy? then r.price.value >= t.last else r.price.value <= t.last)
    ensures FillPrice(r, t).Some? ==> FillPrice(r, t).value == t.last
  {
  }

  lemma CostNonNegative(amount: real, price: real)
    requires amount >= 0.0 && price >= 0.0
    ensures amount * price >= 0.0
  {
  }

  lemma ShiftUsed(b: Balances, asset: string, free: real, used: real, a: string)
    ensures Bal(Shift(b, asset, free, used), a).used == Bal(b, a).used + (if a == asset then used else 0.0)
    ensures Bal(Shift(b, asset, free, used), a).free == Bal(b, a).free + (if a == asset then free else 0.0)
  {
  }

  /** Placing raises each asset's `used` by exactly the new order's share. */
  lemma PlaceUses(l: Ledger, id: Id, r: OrderRequest, t: Ticker, a: string)
    requires Place(l, id, r, t).Ok?
    ensures var (l', o) := Place(l, id, r, t).value;
            Bal(l'.balances, a).used == Bal(l.balances, a).used + Share(a)(o)
  {
    var o := NewOrder(id, r, t);
    if o.status.Open? {
      var (asset, need) := Reservation(o);
      ShiftUsed(l.balances, asset, -need, need, a);
    } else {
      var (asset, need) := Paid(r, o.average.value);
      var (got, amount) := Received(r, o.average.value);
      ShiftUsed(l.balances, asset, -need, 0.0, a);
      ShiftUsed(Shift(l.balances, asset, -need, 0.0), got, amount, 0.0, a);
    }
  }

  /** The fill's proceeds are so negative that what is left of the asset does not cover them. */
  predicate Overdraws(b: Balances, r: OrderRequest, t: Ticker) {
    FillPrice(r, t).Some? &&
    var p := FillPrice(r, t).value;
    var ((asset, need), (got, amount)) := (Paid(r, p), Received(r, p));
    Bal(b, got).free - (if got == asset then need else 0.0) + amount < 0.0
  }

  lemma ReceivedNonNegative(r: OrderRequest, p: real)
    requires r.amount > 0.0 && p >= 0.0
    ensures Received(r, p).1 >= 0.0
  {
    CostNonNegative(r.amount, p);
  }

  /** Only a sale below zero can overdraw. */
  lemma OverdrawsOnlyBelowZero(l: Ledger, id: Id, r: OrderRequest, t: Ticker)
    requires Solvent(l.balances) && r.amount > 0.0 && Place(l, id, r, t).Ok? && Overdraws(l.balances, r, t)
    ensures r.side.Sell? && t.last < 0.0
  {
    FillsAtLast(r, t);
    if t.last >= 0.0 {
      ReceivedNonNegative(r, t.last);
    }
    hide PaperLedgers.Cost, PaperLedgers.SplitSymbol;
  }

  lemma PlaceFrees(l: Ledger, id: Id, r: OrderRequest, t: Ticker, a: string)
    requires Place(l, id, r, t).Ok? && FillPrice(r, t).Some?
    ensures var (l', p) := (Place(l, id, r, t).value.0, FillPrice(r, t).value);
            Bal(l'.balances, a).free == Bal(l.balances, a).free
              - (if a == Paid(r, p).0 then Paid(r, p).1 else 0.0)
              + (if a == Received(r, p).0 then Received(r, p).1 else 0.0)
  {
    hide PaperLedgers.Cost, PaperLedgers.SplitSymbol;
    var p := FillPrice(r, t).value;
    var ((asset, need), (got, amount)) := (Paid(r, p), Received(r, p));
    ShiftUsed(l.balances, asset, -need, 0.0, a);
    ShiftUsed(Shift(l.balances, asset, -need, 0.0), got, amount, 0.0, a);
  }

  /** A placement leaves every free amount non-negative exactly when it does not overdraw. */
  lemma PlaceSolventIff(l: Ledger, id: Id, r: OrderRequest, t: Ticker)
    requires Solvent(l.balances) && Place(l, id, r, t).Ok?
    ensures Solvent(Place(l, id, r, t).value.0.balances) <==> !Overdraws(l.balances, r, t)
  {
    hide PaperLedgers.Cost, PaperLedgers.SplitSymbol;
    var l' := Place(l, id, r, t).value.0;
    if FillPrice(r, t).Some? {
      var p := FillPrice(r, t).value;
      PlaceFrees(l, id, r, t, Received(r, p).0);
      assert Received(r, p).0 in l'.balances;
      forall a | a in l'.balances && a != Received(r, p).0
        ensures l'.balances[a].asset == a && l'.balances[a].free >= 0.0
      {
        PlaceFrees(l, id, r, t, a);
      }
    }
  }

  lemma PlaceKeepsReserved(l: Ledger, id: Id, r: OrderRequest, t: Ticker)
    requires Reserved(l) && ValidRequest(r) && id !in l.orders
    ensures Place(l, id, r, t).Ok? ==> Reserved(Place(l, id, r, t).value.0)
  {
    hide PaperLedgers.SplitSymbol;
    if Place(l, id, r, t).Ok? {
      var (l', o) := Place(l, id, r, t).value;
      assert l.orders - {id} == l.orders;
      forall a: string ensures Bal(l'.balances, a).used == Held(l'.orders, a) {
        SumUpdate(l.orders, Share(a), id, o);
        PlaceUses(l, id, r, t, a);
      }
    }
  }

  /** A placement keeps the whole invariant exactly when it does not overdraw. */
  lemma PlaceBackedIff(l: Ledger, id: Id, r: OrderRequest, t: Ticker)
    requires Backed(l) && ValidRequest(r) && id !in l.orders && Place(l, id, r, t).Ok?
    ensures Backed(Place(l, id, r, t).value.0) <==> !Overdraws(l.balances, r, t)
  {
    PlaceKeepsReserved(l, id, r, t);
    PlaceSolventIff(l, id, r, t);
    hide Reserved, Solvent, Overdraws, PaperLedgers.Place;
  }

  /** Cancelling a live order releases its whole reservation: the cap never bites. */
  lemma CancelReleases(l: Ledger, id: Id, a: string)
    requires Reserved(l) && id in l.orders && Live(l.orders[id])
    ensures var l' := Cancel(l, id).value.0;
            && Bal(l'.balances, a).used == Bal(l.balances, a).used - Share(a)(l.orders[id])
            && Bal(l'.balances, a).free == Bal(l.balances, a).free + Share(a)(l.orders[id])
  {
    var (asset, held) := Reservation(l.orders[id]);
    LiveReservationCovered(l, id);
    ShiftUsed(l.balances, asset, held, -held, a);
  }

  lemma CancelKeepsReserved(l: Ledger, id: Id)
    requires Reserved(l)
    ensures Cancel(l, id).Ok? ==> Reserved(Cancel(l, id).value.0)
  {
    if id in l.orders && Live(l.orders[id]) {
      var (l', o) := Cancel(l, id).value;
      forall a: string ensures Bal(l'.balances, a).used == Held(l'.orders, a) {
        SumUpdate(l.orders, Share(a), id, o);
        SumWithout(l.orders, Share(a), id);
        CancelReleases(l, id, a);
      }
    }
  }

  lemma CancelKeepsBacked(l: Ledger, id: Id)
    requires Backed(l)
    ensures Cancel(l, id).Ok? ==> Backed(Cancel(l, id).value.0)
  {
    CancelKeepsReserved(l, id);
    if id in l.orders && Live(l.orders[id]) {
      LiveReservationCovered(l, id);
    }
    hide Reserved, PaperLedgers.Reservation;
  }

  // -- what a placement moves, whatever it starts from ---------------------

  /** The asset an order needs, and how much of it must be free. */
  function Needed(id: Id, r: OrderRequest, t: Ticker): (string, real) {
    match FillPrice(r, t)
    case None => Reservation(NewOrder(id, r, t))
    case Some(p) => Paid(r, p)
  }

  function Touched(id: Id, r: OrderRequest, t: Ticker): set<string> {
    match FillPrice(r, t)
    case None => {Needed(id, r, t).0}
    case Some(p) => {Needed(id, r, t).0, Received(r, p).0}
  }

  function FreeMove(id: Id, r: OrderRequest, t: Ticker, a: string): real {
    var (asset, need) := Needed(id, r, t);
    var paid := if a == asset then need else 0.0;
    match FillPrice(r, t)
    case None => -paid
    case Some(p) => (if a == Received(r, p).0 then Received(r, p).1 else 0.0) - paid
  }

  function UsedMove(id: Id, r: OrderRequest, t: Ticker, a: string): real {
    var (asset, need) := Needed(id, r, t);
    if FillPrice(r, t).None? && a == asset then need else 0.0
  }

  ghost predicate Moved(b: Balances, b': Balances, id: Id, r: OrderRequest, t: Ticker) {
    && b'.Keys == b.Keys + Touched(id, r, t)
    && forall a: string ::
      Bal(b', a) == Balance(a, Bal(b, a).free + FreeMove(id, r, t, a), Bal(b, a).used + UsedMove(id, r, t, a))
  }

  lemma UntouchedStays(id: Id, r: OrderRequest, t: Ticker, a: string)
    requires a !in Touched(id, r, t)
    ensures FreeMove(id, r, t, a) == 0.0 && UsedMove(id, r, t, a) == 0.0
  {
    hide PaperLedgers.Cost, PaperLedgers.SplitSymbol;
  }

  lemma PlaceMoves(l: Ledger, id: Id, r: OrderRequest, t: Ticker)
    requires Labelled(l.balances)
    ensures Place(l, id, r, t).Ok? <==> Bal(l.balances, Needed(id, r, t).0).free >= Needed(id, r, t).1
    ensures Place(l, id, r, t).Ok? ==>
      var (l', o) := Place(l, id, r, t).value;
      Moved(l.balances, l'.balances, id, r, t) && o == NewOrder(id, r, t) && l'.orders == l.orders[id := o]
  {
    hide PaperLedgers.Cost, PaperLedgers.SplitSymbol, PaperLedgers.Reservation, PaperLedgers.Paid, PaperLedgers.Received;
  }

  /** One unit sold at a price of minus one leaves an empty quote balance below zero. */
  lemma SaleBelowZeroOverdraws() returns (l: Ledger, r: OrderRequest, t: Ticker)
    ensures Backed(l) && ValidRequest(r) && r.kind.Market? && r.side.Sell? && t.last == -1.0
    ensures Place(l, 1, r, t).Ok? && Bal(Place(l, 1, r, t).value.0.balances, QUOTE).free < 0.0
    ensures !Backed(Place(l, 1, r, t).value.0)
  {
    l := Ledger(map["BTC" := Balance("BTC", 1.0, 0.0)], map[]);
    r := OrderRequest("BTC" + ['/'] + QUOTE, Sell, Market, 1.0, None, false, None);
    t := Ticker(-1.0, None);
    SplitPair("BTC", QUOTE);
    var p := FillPrice(r, t).value;
    assert p == -1.0 && Paid(r, p) == ("BTC", 1.0) && Received(r, p).0 == QUOTE && Received(r, p).1 < 0.0;
    assert Place(l, 1, r, t).Ok?;
    PlaceFrees(l, 1, r, t, QUOTE);
    PlaceBackedIff(l, 1, r, t);
  }
}
