# Crypto Trading Hub: verified model

A Dafny model of the parts of the hub where a mistake is hard to see: simulated funds that are rebuilt and saved on every
request, a circuit breaker whose calls run outside its lock, refresh-token rotation, one-time codes, two throttles that
forget what they no longer need, proxy chains, and technical indicators written as running recurrences.

`dafny verify dfyconfig.toml` checks everything.

## How it is organised

Code that changes state in the hub is a class whose methods change the same fields. Each method is proved against a
function on plain values (`Place`, `Cancel`, `Attempt`, `Refreshed`, `AfterFailure`, ...), and those functions are what
the lemmas about whole runs are stated over. Each of these functions is in turn fixed by lemmas that do not use it: the
amounts an order moves, the calls a trace lets through, what a minted token is good for, the share an index stands for.

- `PaperLedger`, `PaperAdapter`: the ledger and the operations that move funds between `free`, `used` and other assets.
- `PaperInvariants`, `PaperRuns`: what every operation and every run keeps. Nothing stores a reservation: it is recomputed
  from the order when the order is cancelled, so the central fact is that `used` always equals the sum of the reservations
  of the live orders.
- `PaperMoves`: what placing, cancelling, checking and recording an order do, in plain amounts.
- `PaperStore`, `PaperService`: balance rows and order records, and a request that loads, operates and saves.
- `PaperRefinement`: that service against one ledger that is never reloaded.
- `PaperInterleaving`, `PaperSafety`, `PaperSerial`: requests on one account as steps that overlap. A request finds the
  rows there are, waits for their lock, loads what they hold by then and commits later; what stays safe, what stays serial.
- `PaperRisk`, `Risk`: what the pre-trade check guarantees about the funds an order takes.
- `CircuitBreaker`: admissions, completions and the clock under every interleaving.
- `TokenStore`, `Sessions`: rotation, revocation, pruning and the generation counter.
- `Totp`, `TotpOverlap`: one-time codes and their enrolment life cycle, for requests one at a time and overlapping.
- `RateLimiter`, `LoginThrottle`: admission over time.
- `ClientAddress`, `Text`: the forwarded-for chain.
- `MovingAverages`, `TrendIndicators`, `SuperTrend`: running computations against their definitions.

Money, prices, indicator values and clocks are exact `real` numbers. Identifiers (order ids, record ids, token
ids, users, client keys, paths) are names that are only compared; where the hub draws them at random they are assumed
fresh. Tickers, clocks and generated ids are parameters. The fee rate, the quote asset, the starting balance and the risk
limits are the defaults the factory and the services use.

## What the proofs found

- **Reservations are exact, and funds go below zero in one way only.** Along every run, at any prices, `used` equals what
  the live orders reserve, so the cap in `_release` never bites. `free >= 0` is kept by every operation except a sale at a
  negative price whose negative proceeds the account cannot cover, and by that one it is always broken (`RunBackedIff`,
  with a failing input in `SaleBelowZeroOverdraws`).
- **The row lock does not cover rows that are not there yet.** `SELECT ... FOR UPDATE` locks the rows that exist when it
  starts. On an account without rows it locks nothing: two first orders can load the seeded ledger side by side, and the
  second commit overwrites the first one's reservation while its order still rests (`FirstUseRaceLosesReservation`). On an
  account in use a request that waits for the lock does not see a row its predecessor inserted: of two overlapping first
  buys of one asset only one unit remains (`SecondBuyOverwritesFirst`). A placement is stale when its query did not find
  all the rows there are when it commits; cancels are never affected. Along every interleaving the stored reservations are
  exact after every step if and only if no accepted stale placement writes over a row with a reservation that it did not
  find, and the store is at every moment the serial one if and only if every accepted stale placement also passes its check
  on the committed rows and writes only assets that stand there as it found them. Neither can fail in a run that begins
  with every request under way having found all rows, and whose placements touch only assets that have one
  (`UpToDateNeverStale`, `UpToDateIsSerial`). Each reservation is released at most once in every interleaving.
- **A pre-trade check may be passed too cheaply.** A market order is checked at its own price, or at an earlier ticker, and
  filled at another. The margin cap holds for every accepted buy except a market order filled above the price it was
  checked at. Between two different assets every such pair of prices lets some account exceed the cap; when base and quote
  coincide the bought amount comes back, and `CapExceededIff` gives the exact prices for that case too.
- **"A single probe" needs a hypothesis.** The breaker's documentation promises a single probe. A failure left over from
  the closed state can re-open the circuit while a probe runs, and a second probe then joins it. At every threshold, runs
  whose calls last at most some limit keep a single probe exactly when that limit is below the recovery timeout
  (`ProbesAloneIff`).
- **"One-time" refresh tokens can be exchanged twice.** Token expiries are whole seconds, the clocks are not, and the
  remaining life is truncated when a token is revoked, so the revocation can lapse in the token's last second. A token is
  exchanged at most twice, the second time only in its last second, and a second exchange is possible exactly when the
  first left more than a second to live (`ExchangedAgainIff`; `LapseForksSession` is a run in which one login ends with two
  sessions). A revocation outlives its token exactly when at most a second was left or it was made on a full second.
- **A one-time code is single-use only for logins that do not overlap, or nearly so.** A login compares with the counter it
  has read and writes later, and nothing locks the user's row. Two overlapping logins can accept one step
  (`TwoLoginsAcceptOneStep`); the second can take the counter back, after which a login that overlaps nobody accepts a
  burnt step (`CounterGoesBack`). For every schedule, the accepted steps strictly increase whatever codes are presented if
  and only if for every two overlapping logins no step that the later one can accept is within the earlier one's window
  or below (`LoginsIncreaseIff`); on a clock that does not go back this says that their windows do not meet. A login that
  overlaps a disable leaves a last step on a factor that is off, and an enrolment that overlaps a confirmation replaces the
  secret of one that is on; `SoundThroughoutIff` and `SecretKeptThroughoutIff` say exactly when.
- **ADX with period 1 can be misplaced.** From period 2 on, undefined directional indices come first and every value
  stands at its own candle. With period 1 the series is in place exactly when no candle after the first one that has a
  range is flat.

## Model

| member | source | states |
|---|---|---|
| PaperAdapters.PaperLedger.constructor | app/exchange/paper_store.py:18-31 | a new ledger holds the given balances and orders, and the seeded quote balance unless one was given |
| PaperAdapters.PaperAdapter.Credit | app/exchange/paper.py:123-125 | raises one asset's free amount and nothing else |
| PaperAdapters.PaperAdapter.Debit | app/exchange/paper.py:127-134 | lowers one asset's free amount, or refuses and changes nothing when it is short |
| PaperAdapters.PaperAdapter.Reserve | app/exchange/paper.py:136-144 | moves free to used, or refuses and changes nothing when free is short |
| PaperAdapters.PaperAdapter.Release | app/exchange/paper.py:146-150 | moves back the amount, capped by what is used |
| PaperAdapters.PaperAdapter.CreateOrder | app/exchange/paper.py:162-230 | the step-by-step fill or rest leaves exactly the ledger `Place` describes; a refusal leaves it untouched, orders included |
| PaperAdapters.PaperAdapter.CancelOrder | app/exchange/paper.py:253-278 | leaves exactly the ledger `Cancel` describes; unknown orders raise, settled ones are returned as they are |
| PaperAdapters.PaperAdapter.FetchBalance | app/exchange/paper.py:116-117 | lists exactly the balances with a positive total, each asset once |
| PaperInvariants.FillsAtLast | app/exchange/paper.py:232-251 | which orders fill, and that every fill is at the last price, so never worse than the limit or the market |
| PaperMoves.PriceAndFee | app/exchange/paper.py:46 | a cost is amount times price, and the fee on it 4 basis points |
| PaperMoves.RestingSell | app/exchange/paper.py:152-188 | a resting sell is accepted exactly when its amount of base is free, and moves exactly that amount from free to used and nothing else |
| PaperMoves.RestingBuy | app/exchange/paper.py:152-188 | a resting buy is accepted exactly when its cost at the limit price with the fee is free in quote (nothing without a price), and moves exactly that |
| PaperMoves.CancelMovesBack | app/exchange/paper.py:253-278 | cancelling an open order moves those same amounts back, marks it cancelled and changes nothing else |
| PaperMoves.CancelSettled | app/exchange/paper.py:254-258 | cancelling a settled order changes nothing, and an unknown one is an error |
| PaperMoves.FilledBuy | app/exchange/paper.py:198-202 | a filled buy is accepted exactly when its cost with the fee is free in quote, and exchanges that for its amount of base |
| PaperMoves.FilledSell | app/exchange/paper.py:203-205 | a filled sell is accepted exactly when its amount of base is free, and exchanges that for its proceeds less the fee |
| PaperMoves.PlacedOrder | app/exchange/paper.py:172-222 | the order repeats the request, and is open with nothing filled or filled in whole at the last price for its fee |
| PaperInvariants.LiveReservationCovered | app/exchange/paper.py:146-159 | in a backed ledger a live order's recomputed reservation is between zero and what is used |
| PaperInvariants.PlaceUses | app/exchange/paper.py:162-230 | placing raises each asset's used amount by exactly the new order's reservation, nothing for a fill |
| PaperInvariants.PlaceKeepsReserved | app/exchange/paper.py:162-230 | at any price, placing keeps used equal to the sum of live reservations |
| PaperInvariants.PlaceBackedIff | app/exchange/paper.py:198-222 | an accepted placement keeps free amounts non-negative as well, exactly unless its proceeds are so negative that the account cannot cover them |
| PaperInvariants.OverdrawsOnlyBelowZero | app/exchange/paper.py:203-205 | only a sale at a negative price does that |
| PaperInvariants.SaleBelowZeroOverdraws | app/exchange/paper.py:203-205 | a concrete sale that leaves the quote asset below zero |
| PaperInvariants.CancelReleases | app/exchange/paper.py:253-278 | cancelling a live order moves back its whole reservation, so the cap never bites |
| PaperInvariants.CancelKeepsBacked | app/exchange/paper.py:253-278 | cancelling keeps reservations exact and free amounts non-negative |
| PaperRuns.RunKeepsReserved | app/exchange/paper.py:123-278 | along every sequence of placements and cancellations, refused ones included and at any prices, used equals the live reservations |
| PaperRuns.RunBackedIff | app/exchange/paper.py:123-278 | every ledger along the run also has no negative free amount, exactly when no operation overdraws |
| PaperRuns.RunKeepsBacked | app/exchange/paper.py:123-278 | which holds for every run at prices that are not negative |
| PaperRuns.FreshRunReserved | app/exchange/paper_store.py:27-31 | both from the seeded ledger on |
| PaperRuns.RestThenCancelRestores | app/exchange/paper.py:152-278 | whatever happens between, cancelling a rested order returns exactly what resting it took |
| PaperRuns.CancelAllFreesEverything | app/exchange/paper.py:253-278 | cancelling all live orders, in any order and with repeats, leaves nothing used and every total unchanged |
| PaperRuns.TotalsMoveOnlyByFills | app/exchange/paper.py:198-222 | an asset's total changes only by a fill, down by what it pays and up by what it receives |
| PaperRuns.RunLosesExactlyFees | app/exchange/paper.py:198-222 | over any run filling at the marks, the account's marked worth falls by exactly the fees charged |
| PaperRuns.BoughtCanBeSold | app/exchange/paper.py:198-205 | what a fill just bought is free to be sold, also when base and quote coincide |
| PaperRuns.RoundTripEarnsPnl | app/trading/risk.py:73-90 | opening and closing through the ledger changes the quote total by exactly the calculator's profit and no other total |
| Risk.PnlRefusesIff | app/trading/risk.py:86-87 | profit is refused exactly unless quantity and prices are positive |
| PaperServices.PaperLedgerRepository.LoadLedger | app/repositories/paper_ledger_repository.py:28-56 | builds balances from the rows, seeding the quote only when there are none, and the open orders |
| PaperServices.PaperLedgerRepository.LoadOpenOrders | app/repositories/paper_ledger_repository.py:58-84 | the loop restores exactly the named live paper records, by exchange order id |
| PaperServices.PaperLedgerRepository.SaveLedger | app/repositories/paper_ledger_repository.py:86-109 | the loop writes every balance of the ledger and leaves other rows alone |
| PaperServices.TradingService.ScanQuoteEquity | app/services/trading_service.py:155-171 | the scan finds the quote asset's total, or zero |
| PaperServices.TradingService.PlaceOrder | app/services/trading_service.py:36-103 | load, check, place, record and save leave what `PlaceRequest` describes; a failure records nothing and has only re-saved the loaded balances |
| PaperServices.TradingService.CancelOrder | app/services/trading_service.py:111-143 | settled records are returned untouched; otherwise the reservation is released and the record settled, also when the ledger no longer knows the order |
| PaperServices.TradingService.HandlePlace | app/database/session.py:53-68 | a failed request leaves rows and records as they were |
| PaperMoves.PlacedRecord | app/services/trading_service.py:173-190 | the record of a placement says of its order what the order says of itself, field by field |
| PaperMoves.CancelledRecord | app/services/trading_service.py:119-143 | a cancelled record keeps everything but its status, a settled one is answered as it is, an unknown one is an error |
| PaperMoves.LoadedExactly | app/repositories/paper_ledger_repository.py:58-84 | exactly the open and partially filled paper records with an exchange id come back as orders, field by field |
| PaperMoves.FirstUseSeeds | app/repositories/paper_ledger_repository.py:32-51 | an account without rows starts with 100000 USDT and nothing else |
| PaperMoves.SubmitAcceptsIff | app/services/trading_service.py:71-82 | a submission is placed exactly when leverage is at most 20 and its notional fits half of the quote total times the leverage, or that of a position at full leverage when there is no total; otherwise it is refused |
| PaperRefinement.LoadSeesMemory | app/repositories/paper_ledger_repository.py:28-84 | loading from a store that agrees with a memory gives its balances and its live orders, timestamps aside |
| PaperRefinement.AgreementGivesDistinctIds | app/exchange/paper.py:83-86 | stores reached from an unused account never hold two records of one exchange order, which loading relies on |
| PaperRefinement.SubmitIgnoresOrders | app/services/trading_service.py:67-82 | a submission's outcome depends on the balances alone, so dropping settled orders cannot change it |
| PaperRefinement.PlaceAgrees | app/services/trading_service.py:36-103 | a placement through the store answers like one in memory and keeps the two in agreement |
| PaperRefinement.CancelAgrees | app/services/trading_service.py:111-143 | so does a cancellation, for unknown, settled and live orders |
| PaperRefinement.RunAgrees | app/services/account_service.py:152-173 | agreement is kept along every sequence of requests, with equal answers |
| PaperRefinement.ServiceRefinesMemory | app/services/account_service.py:142-173 | from first use on, load-operate-save gives the answers, balances and open orders of one ledger never reloaded |
| PaperRisk.AcceptedBuyWithinCap | app/services/trading_service.py:67-82 | an accepted buy takes or reserves at most (1 + fee) x leverage x margin share of the pair's quote total, whatever tickers check and fill saw, unless it is a market order checked too cheaply |
| PaperRisk.AcceptedNotional | app/trading/risk.py:146-169 | acceptance bounds the notional by equity, leverage and margin share |
| PaperRisk.CapExceededIff | app/services/trading_service.py:71-82 | for every symbol, checked price (the order's own or a ticker's) and fill price: some backed account and market buy exceed the cap exactly when a unit takes more than it was checked for and more than half of the funds it needs |
| PaperRisk.ExceedableBetweenAssets | app/services/trading_service.py:71-82 | between two different assets that is exactly a fill above the checked price, and above zero |
| PaperInterleaving.CurrentCommitIsAtomic | app/services/account_service.py:152-173 | a placement whose query found all rows, and every cancel although it read its record earlier and may have missed new rows, commits what the whole request would do at once |
| PaperInterleaving.StaleCommitWrites | app/repositories/paper_ledger_repository.py:86-109 | a stale placement overwrites exactly the rows of the working copy it loaded and records its order |
| PaperInterleaving.StepKeepsInv | app/services/trading_service.py:119-143 | every step of every interleaving keeps store, lock, working copies and memory consistent; only commits change the store, and unless stale as the whole request at once would |
| PaperSafety.ReleasedAtMostOnce | app/services/trading_service.py:119-143 | in every interleaving, stale commits included, cancels of one record release its reservation at most once |
| PaperSafety.OverwrittenReservedIff | app/repositories/paper_ledger_repository.py:42-109 | an accepted stale placement keeps reservations exact if and only if no row that it overwrites without having found it carries one |
| PaperSafety.ReservedThroughoutIff | app/repositories/paper_ledger_repository.py:42-109 | along every interleaving from every consistent state the stored reservations are exact after every step if and only if no stale commit writes over a reserved asset |
| PaperSafety.EveryCommitIsBackedIff | app/repositories/paper_ledger_repository.py:28-109 | the same from first use on; and with prices that are not negative no stored amount is ever below zero, races included |
| PaperSafety.UpToDateNeverStale | app/repositories/paper_ledger_repository.py:42-45 | while requests have found all rows and placements touch only assets with rows, no commit is stale and no reservation is lost |
| PaperSafety.FirstUseRaceLosesReservation | app/repositories/paper_ledger_repository.py:42-51 | a concrete run of two first placements that does not keep the stored reservations exact |
| PaperSerial.StaleSerialIff | app/repositories/paper_ledger_repository.py:42-109 | an accepted stale placement leaves what the request would leave on the committed rows if and only if its check passes there and every asset it writes stands there as it found it |
| PaperSerial.SerialThroughoutIff | app/repositories/paper_ledger_repository.py:42-109 | along every interleaving the store is at every moment that of the committed requests one after the other if and only if every stale commit is of that kind |
| PaperSerial.InterleavingIsSerial | app/services/account_service.py:152-173 | then the final store is the serial one, and loads as one ledger kept in memory over the committed requests |
| PaperSerial.UpToDateIsSerial | app/repositories/paper_ledger_repository.py:42-45 | under the same condition every interleaving is serial |
| PaperSerial.UnseenHoldingIsLost | app/repositories/paper_ledger_repository.py:98-108 | whatever the account held of an asset whose row a stale placement did not find is replaced by what that placement moved |
| PaperSerial.SecondBuyOverwritesFirst | app/repositories/paper_ledger_repository.py:42-109 | a concrete run of two overlapping first buys on an account in use that leaves one unit of two |
| PaperLedgers.SplitPair | app/exchange/paper.py:295-301 | `BASE/QUOTE` splits into the two assets |
| PaperLedgers.SplitSettled | app/exchange/paper.py:297-300 | so does `BASE/QUOTE:SETTLE` |
| PaperLedgers.SplitBare | app/exchange/paper.py:301 | a symbol without a slash is a base in the default quote |
| CircuitBreakers.CircuitBreaker.CanAttempt | app/core/resilience.py:61-74 | admits, rejects and moves to half-open as the protocol's `Attempt` |
| CircuitBreakers.CircuitBreaker.RecordSuccess | app/core/resilience.py:76-79 | any success closes the circuit and clears counter and probe |
| CircuitBreakers.CircuitBreaker.RecordFailure | app/core/resilience.py:81-87 | a failure counts, clears the probe, and opens in half-open or at the threshold, moving the opening time |
| CircuitBreakers.ClosedExactlyBelowThreshold | app/core/resilience.py:61-102 | under every interleaving the circuit is closed exactly when fewer than the threshold of the last completions failed in a row, and a probe flag is up exactly in half-open |
| CircuitBreakers.AdmittedExactly | app/core/resilience.py:61-87 | under every interleaving a call is let through exactly when fewer than the threshold of the latest completions failed, or the latest failure, stale ones included, lies the recovery timeout back and nothing was let through since |
| CircuitBreakers.EpisodeAdmitsExactlyOne | app/core/resilience.py:70-74 | each half-open episode admits exactly one call |
| CircuitBreakers.OpenCircuitAdmitsRarely | app/core/resilience.py:61-87 | while nothing succeeds, calls admitted since opening times the recovery timeout is at most the time elapsed, stale failures included |
| CircuitBreakers.BriefCallsProbeAlone | app/core/resilience.py:61-102 | if every call finishes in less than the recovery timeout, two probes are never under way together |
| CircuitBreakers.StaleFailureAdmitsSecondProbe | app/core/resilience.py:37-39 | for every threshold, and every limit of at least the recovery timeout, a run whose calls last no longer has two probes at once |
| CircuitBreakers.ProbesAloneIff | app/core/resilience.py:61-102 | so all runs with calls of at most a limit keep a single probe if and only if the limit is below the recovery timeout |
| TokenStores.InMemoryTokenStore.Prune | app/security/token_store.py:42-45 | the loop removes exactly the lapsed entries |
| TokenStores.InMemoryTokenStore.Revoke | app/security/token_store.py:47-50 | prunes, then records the token for at least one second |
| TokenStores.InMemoryTokenStore.IsRevoked | app/security/token_store.py:52-60 | answers whether a live entry exists, dropping only a lapsed one |
| TokenStores.RevokeKeepsLive | app/security/token_store.py:42-50 | revoking keeps every live entry and the new one, and no lapsed one |
| TokenStores.LookupForgetsLapsed | app/security/token_store.py:52-60 | a lookup forgets exactly the entry that it finds lapsed |
| Sessions.AuthService.Refresh | app/services/auth_service.py:159-187 | the checks in their order and their effects: rejection, reuse that bumps the generation and survives, or rotation |
| Sessions.AuthService.InvalidateSessions | app/services/auth_service.py:189-205 | raises the user's generation by one and touches no other user |
| Sessions.AuthService.Logout | app/services/auth_service.py:207-214 | revokes a token that decodes, ignores any other |
| Sessions.RefreshedExactly | app/services/auth_service.py:170-187 | a refresh is accepted exactly for a live, unrevoked refresh token of an active user that is not outdated; exactly the reuse of a revoked one raises that user's generation, by one |
| Sessions.MintedPair | app/security/tokens.py:67-101 | a login or an accepted refresh mints one access and one refresh token of the user, at the user's generation, each with its own lifetime in whole seconds; nothing else mints |
| Sessions.NewTokenIsGood | app/services/auth_service.py:155-187 | the new refresh token is accepted exactly until it expires, after any run that does not present it or invalidate the user's sessions |
| Sessions.PresentedIsRevoked | app/services/auth_service.py:184-214 | exchanging a token revokes it, and so does logging out with it |
| Sessions.StepKeepsInv | app/services/auth_service.py:159-214 | names stay unique, generations reachable, and a revocation lapses less than a second before its token, if at all |
| Sessions.RevocationOutlivesIff | app/services/auth_service.py:31-32 | a revocation lasts as long as its token exactly when at most a second is left or it is made on a full second |
| Sessions.ExchangedAtMostTwice | app/services/auth_service.py:175-187 | over every run on a fractional clock each refresh token is exchanged at most twice, and fewer times once revoked or late |
| Sessions.RevokedComesBackLate | app/services/auth_service.py:175-214 | once exchanged or logged out, a token is exchanged only within its last second |
| Sessions.ExchangedAgainIff | app/services/auth_service.py:175-187 | after an exchange some continuation exchanges the token again if and only if it had more than a second to live |
| Sessions.LapseForksSession | app/services/auth_service.py:31-32 | a concrete run with two exchanges of one token, and two sessions from one login |
| Sessions.SpentStaysSpent | app/security/token_store.py:42-60 | pruning and lookups never forget a revocation that outlives its token; on-time exchanges and logouts make such revocations |
| Sessions.ExchangedAtMostOnce | app/services/auth_service.py:175-187 | a token all of whose revocations are made on time is exchanged at most once, and never once spent |
| Sessions.FullSecondsExchangeOnce | app/services/auth_service.py:175-187 | so on a clock of full seconds every token is exchanged at most once |
| Sessions.ReuseEndsSessions | app/services/auth_service.py:175-205 | after a revoked token is presented, no token minted earlier for that user is ever exchanged |
| Sessions.RenewableExactly | app/services/auth_service.py:170-187 | the tokens counted as renewable are exactly those a refresh would accept now |
| Sessions.RenewableWithinLogins | app/services/auth_service.py:154-205 | a user's renewable tokens never outnumber the logins and the early lapses since the last invalidation |
| Sessions.FullSecondsRenewable | app/services/auth_service.py:154-205 | on a clock of full seconds logins alone bound them |
| Sessions.GenerationsNeverDecrease | app/services/auth_service.py:189-201 | along every run no user's generation goes down |
| Totp.TotpService.VerifyCounter | app/security/totp.py:40-57 | returns the largest step of the drift window that shows the code, or none |
| Totp.LatestMatchUnique | app/security/totp.py:51-57 | "largest matching step" has exactly one answer, the downward search's |
| Totp.AcceptedExactly | app/services/auth_service.py:136-276 | a code is accepted exactly as its latest match, later than the last step, with a secret; to log in or to disable, only while the factor is on |
| Totp.NextExactly | app/services/auth_service.py:222-276 | what each request leaves in the three fields, accepted or not |
| Totp.AuthService.BeginEnrollment | app/services/auth_service.py:222-239 | stores a new secret unless the second factor is on, which is a conflict |
| Totp.AuthService.Consume | app/services/auth_service.py:241-255 | burns a matching step later than the last one, and refuses any other without a change |
| Totp.AuthService.ConfirmTotp | app/services/auth_service.py:257-263 | enables the second factor exactly when a code is accepted |
| Totp.AuthService.CheckSecondFactor | app/services/auth_service.py:136-145 | a login with the second factor on passes exactly when it burns a step |
| Totp.AuthService.DisableTotp | app/services/auth_service.py:265-276 | switches the factor off and forgets secret and counter exactly when a code is accepted |
| Totp.LastRecordedExactlyWhenEnabled | app/services/auth_service.py:222-276 | in every run of requests that do not overlap, a last step is on record exactly while the second factor is on |
| TotpOverlaps.SoundThroughoutIff | app/services/auth_service.py:222-276 | along every interleaving the same holds if and only if no accepted login or confirmation finishes after a disable it did not see |
| TotpOverlaps.LoginAfterDisable | app/services/auth_service.py:241-276 | a concrete login overlapping a disable that leaves a last step on a factor that is off |
| Totp.SecretFixedWhileEnabled | app/services/auth_service.py:226-237 | for requests that do not overlap, the secret never changes while the second factor stays on |
| TotpOverlaps.SecretKeptThroughoutIff | app/services/auth_service.py:222-263 | along every interleaving the same holds if and only if no enrolment that saw the factor off begins anew after it was switched on |
| TotpOverlaps.BeginAfterConfirm | app/services/auth_service.py:222-263 | a concrete enrolment overlapping a confirmation that replaces the secret of a factor that is on |
| Totp.AcceptedStepsIncrease | app/services/auth_service.py:241-255 | within one enrolment of requests that do not overlap, accepted steps strictly increase |
| TotpOverlaps.OneByOneIsAtomic | app/services/auth_service.py:257-276 | reading, working on the copy and writing back, one request after the other, is the atomic run these theorems speak of |
| TotpOverlaps.LoginsIncreaseIff | app/services/auth_service.py:106-147 | for every schedule of logins, accepted steps strictly increase whatever codes are presented if and only if every two overlapping logins are clear of each other |
| TotpOverlaps.ClearOnAClock | app/security/totp.py:53-56 | on a clock that does not go back, two logins are clear exactly when their windows do not meet |
| TotpOverlaps.TwoLoginsAcceptOneStep | app/services/auth_service.py:252-255 | a concrete run in which two overlapping logins accept one step |
| TotpOverlaps.CounterGoesBack | app/services/auth_service.py:252-255 | a concrete run in which the counter moves back and a later login, overlapping none, accepts a burnt step |
| Totp.AcceptedCount | app/services/auth_service.py:241-255 | during [t0, t1], requests that do not overlap accept at most t1/30 - t0/30 + 2 x window + 1 codes |
| TotpOverlaps.ApartCount | app/services/auth_service.py:241-255 | so do logins that overlap but are clear of each other |
| RateLimiters.InMemoryRateLimiter.Dispatch | app/api/middleware.py:73-93 | admits exactly when fewer than the limit of all admissions ever made for the client lie in the window; a refusal names the whole seconds until one leaves it; the queues and the sweep time end as `Popped` and `Swept` describe |
| RateLimiters.InMemoryRateLimiter.PopAged | app/api/middleware.py:80-82 | the loop drops exactly the aged front of the queue |
| RateLimiters.InMemoryRateLimiter.MaybeSweep | app/api/middleware.py:95-102 | when due, removes exactly the stale queues, and no client's history is misjudged afterwards |
| RateLimiters.PoppedTracks | app/api/middleware.py:80-83 | the popped queue is as long as the full history has recent admissions |
| RateLimiters.StaleForgotten | app/api/middleware.py:95-102 | a queue whose newest entry has aged may be dropped without changing any later decision |
| RateLimiters.SweptKeepsLive | app/api/middleware.py:95-102 | a sweep that is due keeps exactly the queues with an admission in the last minute |
| RateLimiters.DecidedByLimitthLast | app/api/middleware.py:83-90 | a request is refused exactly when the limit-th last admission is still in the window |
| RateLimiters.InMemoryRateLimiter.HistorySpaced | app/api/middleware.py:73-93 | the limiter's own admissions: admission i + limit comes strictly more than 60 seconds after admission i |
| RateLimiters.AdmissionsSpaced | app/api/middleware.py:73-93 | the same of the decision rule, over any arrivals |
| RateLimiters.RetryAfterPlusOneSuffices | app/api/middleware.py:85-90 | a silent client is admitted one second after Retry-After, and never by waiting Retry-After alone |
| LoginThrottles.InMemoryLoginThrottle.IsLocked | app/security/throttle.py:76-85 | answers from the lock field and forgets exactly an expired entry of that identity |
| LoginThrottles.InMemoryLoginThrottle.RecordFailure | app/security/throttle.py:93-97 | counts, and at the threshold sets or extends the lock, for that identity only |
| LoginThrottles.InMemoryLoginThrottle.RecordSuccess | app/security/throttle.py:99-100 | forgets the identity and no other |
| LoginThrottles.NormalisedExactly | app/security/throttle.py:40 | only ASCII case and blanks around an identity are ignored |
| LoginThrottles.NoLockBeforeThreshold | app/security/throttle.py:93-97 | every failure counts once, and nothing is locked before the threshold is reached |
| LoginThrottles.ThresholdLocks | app/security/throttle.py:76-97 | the failure that reaches it locks for exactly the lockout, after which the entry starts clean |
| LoginThrottles.LocalLockedExactly | app/security/throttle.py:76-97 | without a success an identity is locked exactly while a failure that found the threshold reached is younger than the lockout |
| LoginThrottles.SharedLockedExactly | app/security/throttle.py:131-148 | without a success an identity is locked exactly while some lock set for it is younger than the lockout |
| LoginThrottles.CountsStreak | app/security/throttle.py:141-148 | the failure key counts exactly the latest failures that each came within the lockout of the one before, and a failure goes on to lock exactly when that reaches the threshold |
| LoginThrottles.RedisLoginThrottle.RecordFailure | app/security/throttle.py:138-148 | counts on a decaying key, and sets the lock in a second round trip at the threshold |
| LoginThrottles.RedisLoginThrottle.RecordSuccess | app/security/throttle.py:150-152 | deletes both keys of the identity |
| LoginThrottles.LocalGuessesBounded | app/security/throttle.py:69-100 | with at most c logins in flight and no success, any lockout-long interval records at most max_attempts + c - 1 failures, through expiry, reset, late failures and logins that end without a record |
| LoginThrottles.SharedGuessesBounded | app/security/throttle.py:131-152 | the shared backend keeps the same bound although it counts and locks in separate steps, raised only by the locks whose round trip failed |
| ClientAddresses.NonBlankHops | app/api/client_address.py:82-83 | splits on commas, strips and drops blanks |
| ClientAddresses.ResolveClientIp | app/api/client_address.py:66-88 | without a peer, without proxies or from an untrusted peer the answer is the peer whatever the header says; from a trusted one it is the hop that is no proxy while all to its right are, or the peer if all hops are |
| ClientAddresses.HopsArePieces | app/api/client_address.py:82-83 | the hops are exactly the non-empty stripped pieces of the header |
| ClientAddresses.LastUntrustedIsOne | app/api/client_address.py:83-88 | the answer is a hop of the chain that is not trusted, and there is none only if all hops are |
| ClientAddresses.ForgedPrefixIgnored | app/api/client_address.py:69-72 | putting anything in front of a chain that names an untrusted hop changes nothing |
| ClientAddresses.AllProxyChainDefersToPrefix | app/api/client_address.py:83-88 | behind trusted hops only, the prefix alone decides, so the condition above is needed |
| Text.SplitJoin | app/api/client_address.py:83 | splitting a joined text gives the pieces of both parts in order |
| Text.PiecesWithout | app/api/client_address.py:83 | no piece holds the separator |
| Text.StripPadded | app/api/client_address.py:83 | stripping takes off exactly the blanks at both ends |
| MovingAverages.Sma | app/analytics/indicators.py:28-39 | every value is the plain mean of its own window |
| MovingAverages.MeanTimesLength | app/analytics/indicators.py:34-38 | a window's mean times its length is its sum |
| MovingAverages.SumSlides | app/analytics/indicators.py:36-38 | a window's sum moves by the value entering less the value leaving |
| MovingAverages.Ema | app/analytics/indicators.py:42-54 | every value is the exponential average seeded with a mean |
| MovingAverages.ExponentialRecurrence | app/analytics/indicators.py:48-53 | it starts with a mean and moves towards each value by two parts in period + 1 |
| MovingAverages.ExponentialBetween | app/analytics/indicators.py:42-54 | it stays between bounds of the values consumed so far |
| MovingAverages.WilderSmoothing | app/analytics/indicators.py:57-68 | the series is Wilder's recurrence, undefined before the first window |
| MovingAverages.WilderRecurrence | app/analytics/indicators.py:63-67 | it starts with a mean and gives each new value one part in period |
| MovingAverages.WilderBetween | app/analytics/indicators.py:57-68 | it stays between bounds of the values consumed so far |
| MovingAverages.Rsi | app/analytics/indicators.py:71-92 | the inlined averages are Wilder's smoothing of the rises and falls, shifted by one |
| MovingAverages.MovesAreChanges | app/analytics/indicators.py:80-83 | each change is a rise or a fall, and the other is zero |
| MovingAverages.RsiIsGainShare | app/analytics/indicators.py:84-99 | RSI times average rise plus fall is 100 times the average rise, and 100 without a fall |
| MovingAverages.RsiFollowsGains | app/analytics/indicators.py:95-99 | it grows with the average rise and falls with the average fall |
| MovingAverages.RsiInRange | app/analytics/indicators.py:95-99 | RSI stays in [0, 100] |
| TrendIndicators.TrueRange | app/analytics/indicators.py:147-156 | each entry is the largest of the bar's range and its distances from the previous close |
| TrendIndicators.TrueRangeIsLargest | app/analytics/indicators.py:147-156 | the first range is the bar's own, any other the largest of three distances |
| TrendIndicators.DirectionalMovement | app/analytics/indicators.py:208-214 | each entry is the move that is positive and larger than the opposite one, else zero |
| TrendIndicators.MovesOneWay | app/analytics/indicators.py:210-214 | a move counts only in the direction in which it is positive and larger |
| TrendIndicators.DirectionalIndex | app/analytics/indicators.py:220-228 | the index from the three smoothed series, undefined before the first window and where the smoothed range is zero |
| TrendIndicators.DxIsShare | app/analytics/indicators.py:225-228 | the index times the sum of the two moves is 100 times their difference, and zero without a move |
| TrendIndicators.Adx | app/analytics/indicators.py:199-235 | smooths the defined entries and pushes them to the end; undefined on short inputs |
| TrendIndicators.RangeStaysPositive | app/analytics/indicators.py:216-224 | from period two a smoothed range that is positive stays positive |
| TrendIndicators.UndefinedFirst | app/analytics/indicators.py:220-228 | so undefined directional indices form a prefix |
| TrendIndicators.AdxInPlace | app/analytics/indicators.py:230-235 | every value stands at its own candle, smooths the indices up to it and lies in [0, 100] |
| TrendIndicators.PeriodOneInPlaceIff | app/analytics/indicators.py:230-235 | with period one the series is in place exactly when no later candle lacks a range |
| TrendIndicators.PeriodOneMisplaces | app/analytics/indicators.py:230-235 | a three-candle input where a value lands on another candle |
| SuperTrends.SuperTrend | app/analytics/indicators.py:238-275 | line and direction follow `PointAt` on every bar with an average range, and are undefined before |
| SuperTrends.LineExactly | app/analytics/indicators.py:252-274 | the line and direction of every bar: the first, one that continues and one that turns |
| SuperTrends.BandsAre | app/analytics/indicators.py:252-254 | the bands stand the multiple of the average range from the middle of the bar |
| SuperTrends.LineNeverRetreats | app/analytics/indicators.py:256-272 | within a run of one direction the line never moves against the trend |
| SuperTrends.ContinuationOnTrendSide | app/analytics/indicators.py:259-272 | a bar continuing its direction closes on the trend's side of the line |
| SuperTrends.FlipsExactlyOnCrossing | app/analytics/indicators.py:259-272 | the direction flips exactly when the close is beyond the previous line or the bar's own band |

## Left out

- `Numeric(36, 18)` rounding, the 28-digit decimal context and binary floating-point error: laws are stated in exact arithmetic.
- Live trading and the ccxt adapter: the accounts modelled trade on paper for a whole run, one user and one account at a time.
- Order fields the paper path only stores (stop price, time in force, reduce-only), audit records and log lines.
- The order in which dictionaries and query results are iterated: loops over them pick any remaining element.
- The missing row lock on SQLite. A request whose insert conflicts with another's fails on the table's unique constraint, and is one that aborts.
- PaperRisk.AcceptedBuyWithinCap: assumes a positive quote total, since the service skips the size check otherwise.
- Cancellation of a task inside the breaker's `call`, which records neither outcome; no claim is made that a probe ever ends.
- Refresh as several steps: a refresh is one atomic step, and store, issuer and decoder read clocks that run alike.
- The Redis token store, access-token checks, registration, role checks, password hashing and rehashing, and encryption of secrets.
- Cryptography: tokens are their claims and cannot be forged, and a one-time code is an arbitrary function of secret and step.
- Totp.AcceptedStepsIncrease: speaks of requests that do not overlap, as do Totp.AcceptedCount, Totp.LastRecordedExactlyWhenEnabled and Totp.SecretFixedWhileEnabled; overlapping ones break them, and the TotpOverlaps rows say when.
- TotpOverlaps.LoginsIncreaseIff: takes the codes of a window to be digits and distinct; otherwise a schedule that is not clear may still do no harm.
- Totp.TotpService.VerifyCounter: a code of decimal digits is taken as ASCII digits; other Unicode digits make the original comparison raise.
- LoginThrottles.InMemoryLoginThrottle.RecordFailure: identities are folded to lower case as ASCII text; any folding gives the same proofs.
- The digest in Redis key names, `retry_after` of the throttles, and eviction by the server: a key lives until its expiry.
- Parsing of proxy networks: whether an address is trusted is an arbitrary predicate on the text of a hop.
- `macd`, `bollinger_bands`, `vwap`, `stochastic`, `pivot_points` and trend detection: no property as deep as those above.
- HTTP routing, other middleware, background tasks, migrations, settings, retries and pagination.
