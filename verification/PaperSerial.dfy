/** Interleaved requests against the same requests one after the other. */
module PaperSerial {
  import opened Models
  import opened PaperLedgers
  import opened PaperInvariants
  import opened PaperStores
  import opened PaperRefinement
  import opened PaperInterleaving
  import opened PaperSafety

  // -- when a stale placement is serial --------------------------------------

  /** Every asset the working copy writes back stands in the rows as the copy began with it. */
  ghost predicate WritesAsFound(rows: Rows, keys: set<string>, b: Balances) {
    forall a | a in b :: Bal(LoadBalances(rows), a) == Bal(Found(rows, keys), a)
  }

  lemma AgreeingSavesAreFound(rows: Rows, from: Balances, b: Balances, b': Balances, id: Id, r: OrderRequest, t: Ticker)
    requires rows != map[] && Moved(from, b, id, r, t) && Moved(LoadBalances(rows), b', id, r, t)
    requires Labelled(from) && Save(rows, b) == Save(rows, b')
    ensures forall a | a in b :: Bal(LoadBalances(rows), a) == Bal(from, a)
  {
    hide FreeMove, UsedMove, Touched;
    forall a | a in b ensures Bal(LoadBalances(rows), a) == Bal(from, a) {
      assert a in Save(rows, b') && Save(rows, b)[a] == BalanceRow(b[a].free, b[a].used);
      assert Save(rows, b')[a] == BalanceRow(b'[a].free, b'[a].used);
      assert Bal(b, a) == b[a] && Bal(b', a) == b'[a];
    }
  }

  /** An asset of the working copy that stands in the rows as it does there has a row. */
  lemma FoundHasRow(rows: Rows, keys: set<string>, a: string)
    requires rows != map[] && keys <= rows.Keys && a in Found(rows, keys)
    requires Bal(LoadBalances(rows), a) == Bal(Found(rows, keys), a)
    ensures a in rows
  {
    if keys == {} {
      FoundAll(rows);
    } else {
      FoundSome(rows, keys);
    }
  }

  lemma FoundSavesAgree(rows: Rows, keys: set<string>, b: Balances, b': Balances, id: Id, r: OrderRequest, t: Ticker)
    requires rows != map[] && keys <= rows.Keys && WritesAsFound(rows, keys, b)
    requires Moved(Found(rows, keys), b, id, r, t) && Moved(LoadBalances(rows), b', id, r, t)
    ensures Save(rows, b) == Save(rows, b')
  {
    hide FreeMove, UsedMove, Touched, Found, PaperStores.Save;
    var was := LoadBalances(rows);
    forall a | a in b ensures a in b' && b'[a] == b[a] {
      assert Bal(was, a) == Bal(Found(rows, keys), a) && Bal(b, a) == b[a];
      assert Bal(b', a) == Bal(b, a);
      if a in Found(rows, keys) {
        FoundHasRow(rows, keys, a);
      }
    }
    forall a | a in b' && a !in b ensures a in rows && rows[a] == BalanceRow(b'[a].free, b'[a].used) {
      UntouchedStays(id, r, t, a);
      assert Bal(b', a) == b'[a] && Bal(was, a) == was[a];
    }
    SameSaves(rows, b, b');
  }

  lemma LoadedLabelled(s: Store)
    ensures Labelled(Load(s).balances) && Load(s).balances == LoadBalances(s.rows)
  {
  }

  lemma AcceptedLikeHalf(s: Store, keys: set<string>, id: Id, p: Submission)
    requires s.rows != map[] && Submit(Half(s, keys), id, p).Ok? && Check(LoadBalances(s.rows), p).Ok?
    requires WritesAsFound(s.rows, keys, Submit(Half(s, keys), id, p).value.0.balances)
    ensures Submit(Load(s), id, p).Ok?
  {
    var (r, t) := (p.request, p.fillTicker);
    FoundLabelled(s.rows, keys);
    PlaceMoves(Half(s, keys), id, r, t);
    LoadedLabelled(s);
    PlaceMoves(Load(s), id, r, t);
    SubmitPlaces(Half(s, keys), id, p);
    assert Needed(id, r, t).0 in Touched(id, r, t);
    hide PaperStores.Check, PaperLedgers.Place, Needed, Touched, FreeMove, UsedMove, Load, LoadBalances, Found;
    var b := Submit(Half(s, keys), id, p).value.0.balances;
    assert Needed(id, r, t).0 in b;
  }

  lemma BothMoved(s: Store, keys: set<string>, id: Id, p: Submission)
    requires Submit(Half(s, keys), id, p).Ok? && Submit(Load(s), id, p).Ok?
    ensures var ((l, o), (l', o')) := (Submit(Half(s, keys), id, p).value, Submit(Load(s), id, p).value);
            && Moved(Found(s.rows, keys), l.balances, id, p.request, p.fillTicker)
            && Moved(LoadBalances(s.rows), l'.balances, id, p.request, p.fillTicker) && o == o'
  {
    FoundLabelled(s.rows, keys);
    LoadedLabelled(s);
    PlaceMoves(Half(s, keys), id, p.request, p.fillTicker);
    PlaceMoves(Load(s), id, p.request, p.fillTicker);
    SubmitPlaces(Half(s, keys), id, p);
    SubmitPlaces(Load(s), id, p);
    hide PaperStores.Submit, PaperLedgers.Place, Moved, Load, LoadBalances, Found;
  }

  /** A stale placement leaves what it would have left on the committed rows exactly when the
      check passes there too and every asset it writes back stands there as it was found. */
  lemma StaleSerialIff(s: Store, req: Request, keys: set<string>)
    requires req.PlaceReq? && s.rows != map[] && keys <= s.rows.Keys && req.recordId !in s.records
    requires Submit(Half(s, keys), req.orderId, req.submission).Ok?
    ensures Written(s, req, Half(s, keys)) == Persisted(s, req).0 <==>
            Check(LoadBalances(s.rows), req.submission).Ok?
            && WritesAsFound(s.rows, keys, Submit(Half(s, keys), req.orderId, req.submission).value.0.balances)
  {
    var (id, p) := (req.orderId, req.submission);
    var (l, o) := Submit(Half(s, keys), id, p).value;
    LoadedLabelled(s);
    assert Submit(Load(s), id, p).Ok? ==> Check(LoadBalances(s.rows), p).Ok?;
    hide PaperStores.Submit, PaperStores.Check, Save, Load, LoadBalances, RecordOf, WritesAsFound, Half;
    if Submit(Load(s), id, p).Ok? {
      BothMoved(s, keys, id, p);
      var b' := Submit(Load(s), id, p).value.0.balances;
      if Save(s.rows, l.balances) == Save(s.rows, b') {
        FoundLabelled(s.rows, keys);
        AgreeingSavesAreFound(s.rows, Found(s.rows, keys), l.balances, b', id, p.request, p.fillTicker);
      } else if WritesAsFound(s.rows, keys, l.balances) {
        FoundSavesAgree(s.rows, keys, l.balances, b', id, p.request, p.fillTicker);
      }
    } else if Check(LoadBalances(s.rows), p).Ok? && WritesAsFound(s.rows, keys, l.balances) {
      AcceptedLikeHalf(s, keys, id, p);
    }
  }

  /** Whatever the account held of an asset whose row was not found is gone: the row ends with
      what the stale placement itself moved. */
  lemma UnseenHoldingIsLost(s: Store, req: Request, keys: set<string>, a: string)
    requires req.PlaceReq? && keys != {} && keys <= s.rows.Keys && a in s.rows && a !in keys
    requires Submit(Half(s, keys), req.orderId, req.submission).Ok?
    requires a in Touched(req.orderId, req.submission.request, req.submission.fillTicker)
    ensures var (id, r, t) := (req.orderId, req.submission.request, req.submission.fillTicker);
            Written(s, req, Half(s, keys)).rows[a] == BalanceRow(FreeMove(id, r, t, a), UsedMove(id, r, t, a))
  {
    var (id, p) := (req.orderId, req.submission);
    FoundLabelled(s.rows, keys);
    FoundSome(s.rows, keys);
    PlaceMoves(Half(s, keys), id, p.request, p.fillTicker);
    SubmitPlaces(Half(s, keys), id, p);
    var b := Submit(Half(s, keys), id, p).value.0.balances;
    assert Bal(b, a) == b[a];
    hide PaperStores.Submit, PaperLedgers.Place, FreeMove, UsedMove, Touched, Found;
  }

  // -- whole runs ------------------------------------------------------------

  /** A stale commit is refused by the check, or for want of funds, on what it found. */
  predicate StaleRefused(sys: System, step: Step) {
    Stale(sys, step) &&
    var (req, phase) := (sys.inflight[step.q].request, sys.inflight[step.q].phase);
    Submit(Half(sys.store, phase.keys), req.orderId, req.submission).Err?
  }

  /** The request a step commits; a stale refusal commits nothing. */
  function CommitOf(sys: System, step: Step): seq<Request> {
    if step.Commit? && step.q in sys.inflight && !StaleRefused(sys, step) then [sys.inflight[step.q].request] else []
  }

  /** The requests that committed, in commit order. */
  ghost function Committed(sys: System, steps: seq<Step>): seq<Request>
    requires Runs(sys, steps)
    decreases |steps|
  {
    if steps == [] then [] else CommitOf(sys, steps[0]) + Committed(Next(sys, steps[0]), steps[1..])
  }

  /** If the commit is stale and accepted, its check passes on the committed rows and it writes
      only assets that stand as it found them. */
  ghost predicate SerialCommit(sys: System, step: Step) {
    Stale(sys, step) && !StaleRefused(sys, step) ==>
      var (req, keys) := (sys.inflight[step.q].request, sys.inflight[step.q].phase.keys);
      && Check(LoadBalances(sys.store.rows), req.submission).Ok?
      && WritesAsFound(sys.store.rows, keys,
                       Submit(Half(sys.store, keys), req.orderId, req.submission).value.0.balances)
  }

  lemma StepSerialIff(sys: System, m: Memory, step: Step)
    requires Inv(sys, m) && Enabled(sys, step)
    ensures Next(sys, step).store == RunPersisted(sys.store, CommitOf(sys, step)).0 <==> SerialCommit(sys, step)
  {
    StepKeepsInv(sys, m, step);
    if Stale(sys, step) {
      StaleStepSerialIff(sys, m, step);
    } else if step.Commit? {
      OneRequest(sys.store, sys.inflight[step.q].request);
    }
    hide Inv, Persisted, Written, Load, Copy, WritesAsFound, StaleRefused;
  }

  lemma StaleStepSerialIff(sys: System, m: Memory, step: Step)
    requires Inv(sys, m) && Enabled(sys, step) && Stale(sys, step)
    ensures Next(sys, step).store == RunPersisted(sys.store, CommitOf(sys, step)).0 <==> SerialCommit(sys, step)
  {
    var (req, phase) := (sys.inflight[step.q].request, sys.inflight[step.q].phase);
    assert InFlightFits(sys, m, step.q) && req.recordId !in sys.store.records && sys.store.rows != map[];
    WrittenIgnoresOrders(sys.store, phase.ledger, Half(sys.store, phase.keys), req);
    OneRequest(sys.store, req);
    hide Inv, PaperStores.Submit, PaperStores.Check, Persisted, WritesAsFound, Load, Half, Found;
    if !StaleRefused(sys, step) {
      StaleSerialIff(sys.store, req, phase.keys);
    }
  }

  lemma OneRequest(s: Store, req: Request)
    ensures RunPersisted(s, [req]).0 == Persisted(s, req).0
  {
    hide Persisted;
  }

  /** After every step the store is `s` followed by the requests committed so far. */
  ghost predicate SerialThroughout(sys: System, s: Store, steps: seq<Step>)
    requires Runs(sys, steps)
    decreases |steps|
  {
    && sys.store == s
    && (steps != [] ==>
          SerialThroughout(Next(sys, steps[0]), RunPersisted(s, CommitOf(sys, steps[0])).0, steps[1..]))
  }

  ghost predicate AllSerial(sys: System, steps: seq<Step>)
    requires Runs(sys, steps)
    decreases |steps|
  {
    steps != [] ==> SerialCommit(sys, steps[0]) && AllSerial(Next(sys, steps[0]), steps[1..])
  }

  /** Along every interleaving the store is at every moment the one the committed requests
      leave one after the other, if and only if every stale commit is serial. */
  lemma {:induction false} SerialThroughoutIff(sys: System, m: Memory, steps: seq<Step>)
    requires Inv(sys, m) && Runs(sys, steps)
    ensures SerialThroughout(sys, sys.store, steps) <==> AllSerial(sys, steps)
    decreases |steps|
  {
    hide Inv, Enabled, SerialCommit, Next, After, CommitOf, RunPersisted;
    if steps != [] {
      StepKeepsInv(sys, m, steps[0]);
      StepSerialIff(sys, m, steps[0]);
      SerialThroughoutIff(Next(sys, steps[0]), After(sys, m, steps[0]), steps[1..]);
    }
  }

  /** A serial stale placement leaves the memory that the request itself would leave. */
  lemma SerialStaleIsCurrent(s: Store, m: Memory, req: Request, keys: set<string>)
    requires Agrees(s, m) && FreshNames(m, req) && req.PlaceReq? && s.rows != map[] && keys <= s.rows.Keys
    requires Submit(Half(s, keys), req.orderId, req.submission).Ok? && Check(LoadBalances(s.rows), req.submission).Ok?
    requires WritesAsFound(s.rows, keys, Submit(Half(s, keys), req.orderId, req.submission).value.0.balances)
    ensures Overwritten(s, m, req, keys) == InMemory(m, req).0
  {
    var (id, p) := (req.orderId, req.submission);
    var l := Submit(Half(s, keys), id, p).value.0;
    LoadedLabelled(s);
    assert Labelled(m.ledger.balances) && Load(s).balances == m.ledger.balances;
    hide PaperStores.Submit, PaperStores.Check, Save, Load, LoadBalances, WritesAsFound, HandlesFit, OrdersFit, Half;
    AcceptedLikeHalf(s, keys, id, p);
    BothMoved(s, keys, id, p);
    SubmitIgnoresOrders(Load(s), m.ledger, id, p);
    SubmitGrows(m.ledger, id, p);
    var l' := Submit(m.ledger, id, p).value.0;
    FoundSavesAgree(s.rows, keys, l.balances, l'.balances, id, p.request, p.fillTicker);
    SaveThenLoad(s.rows, l'.balances);
  }

  lemma OneInMemory(m: Memory, req: Request)
    ensures RunInMemory(m, [req]).0 == InMemory(m, req).0 && RunInMemory(m, []).0 == m
  {
    hide InMemory;
  }

  lemma StepSerialMemory(sys: System, m: Memory, step: Step)
    requires Inv(sys, m) && Enabled(sys, step) && SerialCommit(sys, step)
    ensures After(sys, m, step) == RunInMemory(m, CommitOf(sys, step)).0
  {
    hide PaperStores.Submit, PaperStores.Check, InMemory, WritesAsFound, Load, Agrees, Half, Found;
    if step.Commit? {
      var (req, phase) := (sys.inflight[step.q].request, sys.inflight[step.q].phase);
      assert InFlightFits(sys, m, step.q);
      OneInMemory(m, req);
      if StaleRefused(sys, step) {
        RefusedOverwritesNothing(sys.store, m, req, phase.keys);
      } else if Stale(sys, step) {
        SerialStaleIsCurrent(sys.store, m, req, phase.keys);
      }
      hide Overwritten, RunInMemory, Inv;
    }
  }

  lemma {:induction false} RunInMemoryConcat(m: Memory, first: seq<Request>, rest: seq<Request>)
    ensures RunInMemory(m, first + rest).0 == RunInMemory(RunInMemory(m, first).0, rest).0
    decreases |first|
  {
    hide InMemory;
    if first == [] {
      assert first + rest == rest;
    } else {
      assert (first + rest)[1..] == first[1..] + rest;
      RunInMemoryConcat(InMemory(m, first[0]).0, first[1..], rest);
    }
  }

  lemma {:induction false} SerialMemory(sys: System, m: Memory, steps: seq<Step>)
    requires Inv(sys, m) && Runs(sys, steps) && AllSerial(sys, steps)
    ensures Inv(End(sys, steps), RunInMemory(m, Committed(sys, steps)).0)
    decreases |steps|
  {
    hide Inv, Enabled, SerialCommit, Next, After, CommitOf, RunInMemory;
    if steps == [] {
      assert RunInMemory(m, []).0 == m by {
        NothingInMemory(m);
      }
    } else {
      var next := Next(sys, steps[0]);
      StepKeepsInv(sys, m, steps[0]);
      StepSerialMemory(sys, m, steps[0]);
      SerialMemory(next, After(sys, m, steps[0]), steps[1..]);
      RunInMemoryConcat(m, CommitOf(sys, steps[0]), Committed(next, steps[1..]));
    }
  }

  lemma NothingInMemory(m: Memory)
    ensures RunInMemory(m, []).0 == m
  {
  }

  lemma {:induction false} RunPersistedConcat(s: Store, first: seq<Request>, rest: seq<Request>)
    ensures RunPersisted(s, first + rest).0 == RunPersisted(RunPersisted(s, first).0, rest).0
    decreases |first|
  {
    hide Persisted;
    if first == [] {
      assert first + rest == rest;
    } else {
      assert (first + rest)[1..] == first[1..] + rest;
      RunPersistedConcat(Persisted(s, first[0]).0, first[1..], rest);
    }
  }

  lemma {:induction false} SerialAtTheEnd(sys: System, s: Store, steps: seq<Step>)
    requires Runs(sys, steps) && SerialThroughout(sys, s, steps)
    ensures End(sys, steps).store == RunPersisted(s, Committed(sys, steps)).0
    decreases |steps|
  {
    hide Enabled, Next, CommitOf, RunPersisted;
    if steps == [] {
      assert Committed(sys, steps) == [];
      assert RunPersisted(s, []).0 == s by {
        NoRequests(s);
      }
    } else {
      var (first, next) := (CommitOf(sys, steps[0]), Next(sys, steps[0]));
      SerialAtTheEnd(next, RunPersisted(s, first).0, steps[1..]);
      RunPersistedConcat(s, first, Committed(next, steps[1..]));
    }
  }

  lemma NoRequests(s: Store)
    ensures RunPersisted(s, []).0 == s
  {
  }

  /** Interleaved requests leave what the committed ones would leave one after the other, also
      on one ledger kept in memory, provided every stale commit is serial. */
  lemma InterleavingIsSerial(steps: seq<Step>)
    requires Runs(UNUSED, steps) && AllSerial(UNUSED, steps)
    ensures End(UNUSED, steps).store == RunPersisted(EMPTY_STORE, Committed(UNUSED, steps)).0
    ensures var m := RunInMemory(EMPTY_MEMORY, Committed(UNUSED, steps)).0;
            Load(End(UNUSED, steps).store) == Ledger(m.ledger.balances, LiveView(m.ledger.orders))
  {
    UnusedInv();
    SerialThroughoutIff(UNUSED, EMPTY_MEMORY, steps);
    SerialAtTheEnd(UNUSED, EMPTY_STORE, steps);
    SerialMemory(UNUSED, EMPTY_MEMORY, steps);
    var m := RunInMemory(EMPTY_MEMORY, Committed(UNUSED, steps)).0;
    StoreAgrees(End(UNUSED, steps), m);
    LoadSeesMemory(End(UNUSED, steps).store, m);
    hide Inv, Load, LiveView;
  }

  /** On an account whose rows are all there, every interleaving is serial. */
  lemma UpToDateIsSerial(sys: System, m: Memory, steps: seq<Step>)
    requires Inv(sys, m) && UpToDate(sys) && Runs(sys, steps) && KnownAssets(sys.store.rows.Keys, steps)
    ensures End(sys, steps).store == RunPersisted(sys.store, Committed(sys, steps)).0
  {
    UpToDateNeverStale(sys, m, steps);
    NeverStaleIsSerial(sys, steps);
    SerialThroughoutIff(sys, m, steps);
    SerialAtTheEnd(sys, sys.store, steps);
  }

  lemma {:induction false} NeverStaleIsSerial(sys: System, steps: seq<Step>)
    requires Runs(sys, steps) && NeverStale(sys, steps)
    ensures AllSerial(sys, steps)
    decreases |steps|
  {
    hide Enabled, Next, Stale;
    if steps != [] {
      NeverStaleIsSerial(Next(sys, steps[0]), steps[1..]);
    }
  }

  // -- two first buys of one asset -------------------------------------------

  const BUY := Submission(
    OrderRequest("BTC" + ['/'] + QUOTE, Buy, Market, 1.0, None, false, None), None,
    Ticker(2.0, None), Ticker(2.0, None))

  /** An account in use, and two buys that have both found its only row. */
  const IN_USE := System(
    Store(map[QUOTE := BalanceRow(STARTING_BALANCE, 0.0)], map[]), None,
    map[1 := InFlight(PlaceReq(1, 2, BUY), Waiting({QUOTE})), 2 := InFlight(PlaceReq(3, 4, BUY), Waiting({QUOTE}))],
    {1, 2, 3, 4})

  lemma BuyMoves(id: Id)
    ensures Needed(id, BUY.request, BUY.fillTicker).0 == QUOTE && Needed(id, BUY.request, BUY.fillTicker).1 <= 3.0
    ensures Touched(id, BUY.request, BUY.fillTicker) == {QUOTE, "BTC"}
    ensures FreeMove(id, BUY.request, BUY.fillTicker, "BTC") == 1.0
    ensures FreeMove(id, BUY.request, BUY.fillTicker, QUOTE) >= -3.0
    ensures UsedMove(id, BUY.request, BUY.fillTicker, "BTC") == 0.0
    ensures UsedMove(id, BUY.request, BUY.fillTicker, QUOTE) == 0.0
  {
    SplitPair("BTC", QUOTE);
    assert Cost(1.0, 2.0) == 2.0;
    hide PaperLedgers.SplitSymbol;
  }

  lemma BuyAccepted(b: Balances, id: Id)
    requires Labelled(b) && Bal(b, QUOTE).free >= 10.0 && Bal(b, QUOTE).used == 0.0
    ensures Submit(Ledger(b, map[]), id, BUY).Ok?
    ensures var b' := Submit(Ledger(b, map[]), id, BUY).value.0.balances;
            Moved(b, b', id, BUY.request, BUY.fillTicker)
  {
    BuyMoves(id);
    PlaceMoves(Ledger(b, map[]), id, BUY.request, BUY.fillTicker);
    assert Check(b, BUY).Ok? by {
      SplitPair("BTC", QUOTE);
      assert Cost(1.0, 2.0) == 2.0;
      hide PaperLedgers.SplitSymbol;
      assert QuoteEquity(b, BUY.request.symbol) == Bal(b, QUOTE).Total();
    }
    hide PaperLedgers.Place, PaperStores.Check, Moved, Needed;
  }

  /** After a buy committed by a request that found the quote row only. */
  lemma BuyCommits(s: Store, recordId: Id, id: Id)
    requires QUOTE in s.rows && s.rows[QUOTE].free >= 10.0 && s.rows[QUOTE].used == 0.0
    ensures var s' := Written(s, PlaceReq(recordId, id, BUY), Half(s, {QUOTE}));
            && QUOTE in s'.rows && s'.rows[QUOTE].free >= s.rows[QUOTE].free - 3.0 && s'.rows[QUOTE].used == 0.0
            && "BTC" in s'.rows && s'.rows["BTC"] == BalanceRow(1.0, 0.0) && s'.records.Keys == s.records.Keys + {recordId}
  {
    var b := Found(s.rows, {QUOTE});
    FoundSome(s.rows, {QUOTE});
    FoundLabelled(s.rows, {QUOTE});
    BuyAccepted(b, id);
    BuyMoves(id);
    var b' := Submit(Half(s, {QUOTE}), id, BUY).value.0.balances;
    assert Bal(b', "BTC") == b'["BTC"] && Bal(b', QUOTE) == b'[QUOTE];
    assert Bal(b, "BTC") == Balance("BTC", 0.0, 0.0);
    hide PaperStores.Submit, Found, FreeMove, UsedMove, Touched, BUY, RecordOf;
  }

  lemma InUseInv()
    ensures Inv(IN_USE, Memory(FRESH, map[]))
  {
    hide Reserves, Found, PaperStores.OpenOrders;
    assert LoadBalances(IN_USE.store.rows) == FRESH.balances;
  }

  /** From a consistent state, two overlapping buys of one unit each that both commit leave one
      unit: the second did not find the row that the first inserted. */
  lemma SecondBuyOverwritesFirst() returns (s1: System, s2: System, s3: System, s4: System)
    ensures Inv(IN_USE, Memory(FRESH, map[]))
    ensures Enabled(IN_USE, TakeLock(1)) && s1 == Next(IN_USE, TakeLock(1)) && Enabled(s1, Commit(1))
    ensures s2 == Next(s1, Commit(1)) && Enabled(s2, TakeLock(2)) && s3 == Next(s2, TakeLock(2))
    ensures Enabled(s3, Commit(2)) && s4 == Next(s3, Commit(2))
    ensures s4.store.records.Keys == {1, 3} && "BTC" in s2.store.rows && "BTC" in s4.store.rows
    ensures s2.store.rows["BTC"].free == 1.0 && s4.store.rows["BTC"].free == 1.0
  {
    InUseInv();
    hide Copy, Half, Written, BUY;
    s1 := Next(IN_USE, TakeLock(1));
    s2 := Next(s1, Commit(1));
    s3 := Next(s2, TakeLock(2));
    s4 := Next(s3, Commit(2));
    HalfForCopy(IN_USE.store, {QUOTE}, PlaceReq(1, 2, BUY));
    BuyCommits(IN_USE.store, 1, 2);
    HalfForCopy(s2.store, {QUOTE}, PlaceReq(3, 4, BUY));
    BuyCommits(s2.store, 3, 4);
  }

  lemma HalfForCopy(s: Store, keys: set<string>, req: Request)
    requires req.PlaceReq?
    ensures Written(s, req, Copy(s, keys)) == Written(s, req, Half(s, keys))
  {
    WrittenIgnoresOrders(s, Copy(s, keys), Half(s, keys), req);
    hide Written;
  }
}
