/** Login sessions: refresh rotation, revocation and the generation counter. */
module Sessions {
  import opened Models
  import opened TokenStores

  /** A signed token is its claims: signatures cannot be forged. Expiries are whole seconds;
      the clock is not. */
  datatype Claims = Claims(subject: Id, refresh: bool, jti: Id, generation: nat, expiresAt: int)

  datatype User = User(active: bool, generation: nat)

  datatype Lifetimes = Lifetimes(access: int, refresh: int)

  /** The pair's token ids, drawn fresh. */
  datatype Names = Names(access: Id, refresh: Id)

  datatype Pair = Pair(access: Claims, refresh: Claims)

  type Users = map<Id, User>

  function IssuePair(subject: Id, generation: nat, life: Lifetimes, now: real, names: Names): Pair {
    Pair(Claims(subject, false, names.access, generation, (now + life.access as real).Floor),
         Claims(subject, true, names.refresh, generation, (now + life.refresh as real).Floor))
  }

  /** Decoding for a refresh: the token is of the right type and has not expired. */
  predicate Decodes(t: Claims, now: real) {
    t.refresh && now < t.expiresAt as real
  }

  function RemainingTtl(t: Claims, now: real): int {
    AtLeastOne((t.expiresAt as real - now).Floor)
  }

  datatype State = State(users: Users, revoked: Revoked)

  predicate Usable(users: Users, t: Claims) {
    t.subject in users && users[t.subject].active
  }

  function Bumped(users: Users, subject: Id): Users
    requires subject in users
  {
    users[subject := users[subject].(generation := users[subject].generation + 1)]
  }

  /** One refresh request. Reuse of a revoked token invalidates every session of its user,
      and that survives the rejection. */
  function Refreshed(s: State, t: Claims, life: Lifetimes, now: real, names: Names): (State, Result<Pair>) {
    if !Decodes(t, now) || !Usable(s.users, t) then (s, Err(Authentication))
    else if HoldsRevoked(s.revoked, now, t.jti) then
      (s.(users := Bumped(s.users, t.subject)), Err(Authentication))
    else
      var s := s.(revoked := AfterLookup(s.revoked, now, t.jti));
      var generation := s.users[t.subject].generation;
      if t.generation < generation then (s, Err(Authentication))
      else
        (s.(revoked := AfterRevoke(s.revoked, now, t.jti, RemainingTtl(t, now))),
         Ok(IssuePair(t.subject, generation, life, now, names)))
  }

  function LoggedOut(s: State, t: Claims, now: real): State {
    if Decodes(t, now) then s.(revoked := AfterRevoke(s.revoked, now, t.jti, RemainingTtl(t, now))) else s
  }

  class AuthService {
    var users: Users
    const store: InMemoryTokenStore
    const life: Lifetimes

    ghost function Value(): State
      reads this, store
    {
      State(users, store.revoked)
    }

    constructor (users: Users, store: InMemoryTokenStore, life: Lifetimes)
      ensures this.users == users && this.store == store && this.life == life
    {
      this.users := users;
      this.store := store;
      this.life := life;
    }

    method Refresh(token: Claims, now: real, names: Names) returns (r: Result<Pair>)
      modifies this, store
      ensures (Value(), r) == Refreshed(old(Value()), token, life, now, names)
    {
      if !token.refresh || now >= token.expiresAt as real {
        return Err(Authentication);
      }
      if token.subject !in users || !users[token.subject].active {
        return Err(Authentication);
      }
      var revoked := store.IsRevoked(token.jti, now);
      if revoked {
        InvalidateSessions(token.subject);
        assert store.revoked == old(store.revoked);
        return Err(Authentication);
      }
      if token.generation < users[token.subject].generation {
        return Err(Authentication);
      }
      store.Revoke(token.jti, RemainingTtl(token, now), now);
      return Ok(IssuePair(token.subject, users[token.subject].generation, life, now, names));
    }

    method InvalidateSessions(subject: Id)
      requires subject in users
      modifies this
      ensures users == Bumped(old(users), subject)
    {
      users := users[subject := users[subject].(generation := users[subject].generation + 1)];
    }

    method Logout(token: Claims, now: real)
      modifies store
      ensures Value() == LoggedOut(old(Value()), token, now)
    {
      if token.refresh && now < token.expiresAt as real {
        store.Revoke(token.jti, RemainingTtl(token, now), now);
      }
    }
  }

  // -- the protocol ------------------------------------------------------

  /** The state, every token ever minted, and the clock. */
  datatype System = System(state: State, minted: set<Claims>, now: real)

  datatype Event =
    | Login(user: Id, names: Names)
    | Refresh(token: Claims, names: Names)
    | Logout(token: Claims)
    | Tick(seconds: real)

  predicate FreshName(sys: System, jti: Id) {
    forall t | t in sys.minted :: t.jti != jti
  }

  predicate FreshNames(sys: System, n: Names) {
    n.access != n.refresh && FreshName(sys, n.access) && FreshName(sys, n.refresh)
  }

  /** Only minted tokens can be presented, and new tokens get new names. */
  predicate Enabled(sys: System, e: Event) {
    match e
    case Login(u, names) => u in sys.state.users && sys.state.users[u].active && FreshNames(sys, names)
    case Refresh(t, names) => t in sys.minted && FreshNames(sys, names)
    case Logout(t) => t in sys.minted
    case Tick(d) => d >= 0.0
  }

  function Mint(minted: set<Claims>, p: Pair): set<Claims> {
    minted + {p.access, p.refresh}
  }

  function Next(sys: System, life: Lifetimes, e: Event): System {
    match e
    case Login(u, names) =>
      if u in sys.state.users then
        sys.(minted := Mint(sys.minted, IssuePair(u, sys.state.users[u].generation, life, sys.now, names)))
      else sys
    case Refresh(t, names) =>
      var (s, r) := Refreshed(sys.state, t, life, sys.now, names);
      sys.(state := s, minted := if r.Ok? then Mint(sys.minted, r.value) else sys.minted)
    case Logout(t) => sys.(state := LoggedOut(sys.state, t, sys.now))
    case Tick(d) => sys.(now := sys.now + d)
  }

  predicate Valid(sys: System, life: Lifetimes, events: seq<Event>)
    decreases |events|
  {
    events != [] ==> Enabled(sys, events[0]) && Valid(Next(sys, life, events[0]), life, events[1..])
  }

  function Run(sys: System, life: Lifetimes, events: seq<Event>): System
    decreases |events|
  {
    if events == [] then sys else Run(Next(sys, life, events[0]), life, events[1..])
  }

  /** Tokens have distinct names, and generations their users have reached. */
  predicate MintedFits(sys: System) {
    && (forall t, u | t in sys.minted && u in sys.minted && t.jti == u.jti :: t == u)
    && (forall t | t in sys.minted ::
          t.subject in sys.state.users && t.generation <= sys.state.users[t.subject].generation)
  }

  /** A revocation lapses less than a second before the token it names, if at all. */
  ghost predicate RevokedFits(sys: System) {
    && (forall t | t in sys.minted && t.jti in sys.state.revoked ::
          sys.state.revoked[t.jti] > t.expiresAt as real - 1.0)
    && sys.state.revoked.Keys <= set t | t in sys.minted :: t.jti
  }

  ghost predicate Inv(sys: System) {
    MintedFits(sys) && RevokedFits(sys)
  }

  lemma RefreshKeepsMinted(sys: System, life: Lifetimes, e: Event)
    requires MintedFits(sys) && Enabled(sys, e) && e.Refresh?
    ensures MintedFits(Next(sys, life, e))
  {
    hide AfterRevoke, AfterLookup, HoldsRevoked, RemainingTtl;
  }

  lemma RefreshKeepsRevoked(sys: System, life: Lifetimes, e: Event)
    requires Inv(sys) && Enabled(sys, e) && e.Refresh?
    ensures RevokedFits(Next(sys, life, e))
  {
    TtlReaches(e.token, sys.now);
    hide RemainingTtl;
  }

  lemma LoginOrLogoutKeepsInv(sys: System, life: Lifetimes, e: Event)
    requires Inv(sys) && Enabled(sys, e) && (e.Login? || e.Logout?)
    ensures Inv(Next(sys, life, e))
  {
    if e.Logout? {
      TtlReaches(e.token, sys.now);
    }
    hide RemainingTtl;
  }

  lemma StepKeepsInv(sys: System, life: Lifetimes, e: Event)
    requires Inv(sys) && Enabled(sys, e)
    ensures Inv(Next(sys, life, e))
  {
    match e
    case Refresh(_, _) =>
      RefreshKeepsMinted(sys, life, e);
      RefreshKeepsRevoked(sys, life, e);
    case Tick(_) =>
    case _ => LoginOrLogoutKeepsInv(sys, life, e);
    hide Enabled, Refreshed, LoggedOut;
  }

  lemma TtlReaches(t: Claims, now: real)
    ensures now + RemainingTtl(t, now) as real > t.expiresAt as real - 1.0
  {
  }

  /** Nobody has logged in yet. */
  predicate Unused(sys: System) {
    sys.minted == {} && sys.state.revoked == map[]
  }

  lemma UnusedInv(sys: System)
    requires Unused(sys)
    ensures Inv(sys)
  {
  }

  // -- what a presented token does ------------------------------------------

  /** A refresh is accepted exactly for a live refresh token of an active user that is not revoked
      and not outdated. Only reuse of a revoked one raises a generation. */
  lemma RefreshedExactly(s: State, t: Claims, life: Lifetimes, now: real, names: Names)
    ensures var (s', r) := Refreshed(s, t, life, now, names);
            var known := t.refresh && now < t.expiresAt as real && t.subject in s.users && s.users[t.subject].active;
            var revoked := t.jti in s.revoked && s.revoked[t.jti] > now;
            && (r.Ok? <==> known && !revoked && t.generation >= s.users[t.subject].generation)
            && (r.Err? ==> r.error == Authentication)
            && (forall u | u in s.users ::
                  && u in s'.users && s'.users[u].active == s.users[u].active
                  && s'.users[u].generation
                     == s.users[u].generation + if known && revoked && u == t.subject then 1 else 0)
            && (forall j | j != t.jti && j in s.revoked && s.revoked[j] > now ::
                  j in s'.revoked && s'.revoked[j] == s.revoked[j])
  {
  }

  /** What an accepted refresh, or a login, mints: one access and one refresh token of the user, at
      the user's generation, each with its own lifetime. */
  ghost predicate MintsPair(sys: System, life: Lifetimes, next: System, user: Id, names: Names)
    requires user in sys.state.users
  {
    var generation := sys.state.users[user].generation;
    next.minted == sys.minted
      + {Claims(user, false, names.access, generation, (sys.now + life.access as real).Floor),
         Claims(user, true, names.refresh, generation, (sys.now + life.refresh as real).Floor)}
  }

  lemma MintedPair(sys: System, life: Lifetimes, e: Event)
    requires Enabled(sys, e)
    ensures e.Login? ==> MintsPair(sys, life, Next(sys, life, e), e.user, e.names)
    ensures e.Refresh? ==>
      var r := Refreshed(sys.state, e.token, life, sys.now, e.names).1;
      && (r.Err? ==> Next(sys, life, e).minted == sys.minted)
      && (r.Ok? ==>
            && MintsPair(sys, life, Next(sys, life, e), e.token.subject, e.names)
            && r.value.access in Next(sys, life, e).minted && !r.value.access.refresh && r.value.access.jti == e.names.access
            && r.value.refresh in Next(sys, life, e).minted && r.value.refresh.refresh
            && r.value.refresh.jti == e.names.refresh)
    ensures e.Logout? || e.Tick? ==> Next(sys, life, e).minted == sys.minted
  {
    hide AfterRevoke, AfterLookup;
  }

  /** A refresh token that has never been revoked, of the generation its user stands at. */
  ghost predicate Untouched(sys: System, t: Claims) {
    && t in sys.minted && t.refresh && t.jti !in sys.state.revoked && Usable(sys.state.users, t)
    && t.generation == sys.state.users[t.subject].generation
  }

  lemma NewTokenUntouched(sys: System, life: Lifetimes, e: Event, user: Id)
    requires Inv(sys) && Enabled(sys, e)
    requires (e.Login? && e.user == user) || (e.Refresh? && e.token.subject == user && Exchanges(sys, life, e, e.token))
    ensures user in sys.state.users
    ensures Untouched(Next(sys, life, e), Claims(user, true, e.names.refresh, sys.state.users[user].generation,
                                                 (sys.now + life.refresh as real).Floor))
  {
  }

  /** The run neither presents the token nor invalidates its user's sessions. */
  predicate LeavesAlone(sys: System, life: Lifetimes, events: seq<Event>, t: Claims)
    decreases |events|
  {
    events != [] ==>
      && (events[0].Refresh? || events[0].Logout? ==> events[0].token != t)
      && !Reuses(sys, events[0], t.subject)
      && LeavesAlone(Next(sys, life, events[0]), life, events[1..], t)
  }

  lemma UntouchedStep(sys: System, life: Lifetimes, e: Event, t: Claims)
    requires Inv(sys) && Enabled(sys, e) && Untouched(sys, t) && !Reuses(sys, e, t.subject)
    requires e.Refresh? || e.Logout? ==> e.token != t
    ensures Untouched(Next(sys, life, e), t)
  {
  }

  lemma {:induction false} StaysUntouched(sys: System, life: Lifetimes, events: seq<Event>, t: Claims)
    requires Inv(sys) && Valid(sys, life, events) && Untouched(sys, t) && LeavesAlone(sys, life, events, t)
    ensures Untouched(Run(sys, life, events), t)
    decreases |events|
  {
    hide Inv, Enabled, Untouched, Reuses, Next;
    if events != [] {
      StepKeepsInv(sys, life, events[0]);
      UntouchedStep(sys, life, events[0], t);
      StaysUntouched(Next(sys, life, events[0]), life, events[1..], t);
    }
  }

  /** The refresh token that a login or an accepted refresh mints is good for its whole lifetime:
      after any run that leaves it and its user's sessions alone, presenting it is accepted exactly
      until it expires, and mints for the same user again. */
  lemma NewTokenIsGood(sys: System, life: Lifetimes, e: Event, user: Id, events: seq<Event>, names: Names)
    requires Inv(sys) && Enabled(sys, e)
    requires (e.Login? && e.user == user) || (e.Refresh? && e.token.subject == user && Exchanges(sys, life, e, e.token))
    ensures user in sys.state.users
    ensures var t := Claims(user, true, e.names.refresh, sys.state.users[user].generation,
                            (sys.now + life.refresh as real).Floor);
            var next := Next(sys, life, e);
            t in next.minted &&
            (Valid(next, life, events) && LeavesAlone(next, life, events, t) ==>
               var last := Run(next, life, events);
               Exchanges(last, life, Refresh(t, names), t)
               <==> last.now < (sys.now + life.refresh as real).Floor as real)
  {
    NewTokenUntouched(sys, life, e, user);
    var t := Claims(user, true, e.names.refresh, sys.state.users[user].generation, (sys.now + life.refresh as real).Floor);
    var next := Next(sys, life, e);
    if Valid(next, life, events) && LeavesAlone(next, life, events, t) {
      StepKeepsInv(sys, life, e);
      StaysUntouched(next, life, events, t);
      var last := Run(next, life, events);
      RefreshedExactly(last.state, t, life, last.now, names);
    }
    hide Inv, Next, Run, Valid, LeavesAlone, Refreshed;
  }

  // -- how often a refresh token is exchanged -----------------------------

  predicate Exchanges(sys: System, life: Lifetimes, e: Event, t: Claims) {
    e.Refresh? && e.token == t && Refreshed(sys.state, t, life, sys.now, e.names).1.Ok?
  }

  function ExchangeCount(sys: System, life: Lifetimes, events: seq<Event>, t: Claims): nat
    decreases |events|
  {
    if events == [] then 0
    else (if Exchanges(sys, life, events[0], t) then 1 else 0)
         + ExchangeCount(Next(sys, life, events[0]), life, events[1..], t)
  }

  function LifeLeft(t: Claims, now: real): real {
    t.expiresAt as real - now
  }

  predicate Whole(x: real) {
    x == x.Floor as real
  }

  lemma FloorIs(x: real, n: int)
    requires n as real <= x < n as real + 1.0
    ensures x.Floor == n
  {
  }

  lemma TtlOutlivesIff(t: Claims, now: real)
    requires LifeLeft(t, now) > 0.0
    ensures now + RemainingTtl(t, now) as real >= t.expiresAt as real <==> LifeLeft(t, now) <= 1.0 || Whole(now)
  {
    var left := LifeLeft(t, now);
    if Whole(now) {
      var n := t.expiresAt - now.Floor;
      assert left == n as real;
      FloorIs(left, n);
    }
    if left.Floor as real == left {
      FloorIs(now, t.expiresAt - left.Floor);
    }
  }

  /** Revoking at `now` lasts as long as the token only in its last second or on a full second. */
  lemma RevocationOutlivesIff(r: Revoked, t: Claims, now: real)
    requires Decodes(t, now)
    ensures AfterRevoke(r, now, t.jti, RemainingTtl(t, now))[t.jti] >= t.expiresAt as real
            <==> LifeLeft(t, now) <= 1.0 || Whole(now)
  {
    TtlOutlivesIff(t, now);
    hide Whole, RemainingTtl;
  }

  /** How often the token can still be exchanged. */
  function Chances(sys: System, t: Claims): nat {
    var left := LifeLeft(t, sys.now);
    if left <= 0.0 || (left <= 1.0 && t.jti in sys.state.revoked && sys.state.revoked[t.jti] >= t.expiresAt as real)
    then 0
    else if left <= 1.0 || HoldsRevoked(sys.state.revoked, sys.now, t.jti) then 1 else 2
  }

  lemma ChancesShrink(sys: System, life: Lifetimes, e: Event, t: Claims)
    requires Inv(sys) && Enabled(sys, e) && t in sys.minted
    ensures t in Next(sys, life, e).minted
    ensures Chances(Next(sys, life, e), t) + (if Exchanges(sys, life, e, t) then 1 else 0) <= Chances(sys, t)
  {
  }

  lemma ExchangedIsMinted(sys: System, life: Lifetimes, e: Event, t: Claims)
    requires Enabled(sys, e) && Exchanges(sys, life, e, t)
    ensures t in sys.minted
  {
  }

  /** Over every run a refresh token is exchanged at most twice. */
  lemma {:induction false} ExchangedAtMostTwice(sys: System, life: Lifetimes, events: seq<Event>, t: Claims)
    requires Inv(sys) && Valid(sys, life, events)
    ensures ExchangeCount(sys, life, events, t) <= if t in sys.minted then Chances(sys, t) else 2
    decreases |events|
  {
    hide Inv, Enabled, Exchanges, Next;
    if events != [] {
      StepKeepsInv(sys, life, events[0]);
      if t in sys.minted {
        ChancesShrink(sys, life, events[0], t);
      } else if Exchanges(sys, life, events[0], t) {
        ExchangedIsMinted(sys, life, events[0], t);
      }
      ExchangedAtMostTwice(Next(sys, life, events[0]), life, events[1..], t);
    }
  }

  /** Every exchange of the token falls in the last second before it expires. */
  predicate ExchangedOnlyLate(sys: System, life: Lifetimes, events: seq<Event>, t: Claims)
    decreases |events|
  {
    events != [] ==>
      && (Exchanges(sys, life, events[0], t) ==> LifeLeft(t, sys.now) < 1.0)
      && ExchangedOnlyLate(Next(sys, life, events[0]), life, events[1..], t)
  }

  predicate RevokedOrLate(sys: System, t: Claims) {
    t in sys.minted && (HoldsRevoked(sys.state.revoked, sys.now, t.jti) || LifeLeft(t, sys.now) < 1.0)
  }

  /** Exchanging a token revokes it, and so does logging out with it. */
  lemma PresentedIsRevoked(sys: System, life: Lifetimes, e: Event, t: Claims)
    requires Inv(sys) && Enabled(sys, e) && t in sys.minted && t.refresh
    requires Exchanges(sys, life, e, t) || (e.Logout? && e.token == t)
    ensures RevokedOrLate(Next(sys, life, e), t)
  {
    TtlReaches(t, sys.now);
    hide Inv;
  }

  lemma StaysRevokedOrLate(sys: System, life: Lifetimes, e: Event, t: Claims)
    requires Inv(sys) && Enabled(sys, e) && RevokedOrLate(sys, t)
    ensures RevokedOrLate(Next(sys, life, e), t)
    ensures Exchanges(sys, life, e, t) ==> LifeLeft(t, sys.now) < 1.0
  {
  }

  /** Once revoked, by a refresh or a logout, it can come back only in its last second. */
  lemma {:induction false} RevokedComesBackLate(sys: System, life: Lifetimes, events: seq<Event>, t: Claims)
    requires Inv(sys) && Valid(sys, life, events) && RevokedOrLate(sys, t)
    ensures ExchangedOnlyLate(sys, life, events, t)
    decreases |events|
  {
    hide Inv, Enabled, Exchanges, Next, RevokedOrLate;
    if events != [] {
      StepKeepsInv(sys, life, events[0]);
      StaysRevokedOrLate(sys, life, events[0], t);
      RevokedComesBackLate(Next(sys, life, events[0]), life, events[1..], t);
    }
  }

  /** Wait until just over a second of life is left, log out, wait for that to lapse, refresh. */
  function Comeback(t: Claims, now: real, names: Names): seq<Event> {
    var last := if LifeLeft(t, now) < 1.5 then LifeLeft(t, now) else 1.5;
    [Tick(LifeLeft(t, now) - last), Logout(t), Tick(1.0), Refresh(t, names)]
  }

  lemma ComebackExchanges(sys: System, life: Lifetimes, t: Claims, names: Names)
    requires t in sys.minted && t.refresh && Usable(sys.state.users, t) && LifeLeft(t, sys.now) > 1.0
    requires t.generation >= sys.state.users[t.subject].generation && FreshNames(sys, names)
    ensures Valid(sys, life, Comeback(t, sys.now, names))
    ensures ExchangeCount(sys, life, Comeback(t, sys.now, names), t) == 1
  {
    var events := Comeback(t, sys.now, names);
    var s1 := Next(sys, life, events[0]);
    var s2 := Next(s1, life, events[1]);
    var s3 := Next(s2, life, events[2]);
    assert 1.0 < LifeLeft(t, s1.now) <= 1.5 && RemainingTtl(t, s1.now) == 1;
    assert s2.state.revoked[t.jti] == s3.now < t.expiresAt as real;
    assert Exchanges(s3, life, events[3], t) && Enabled(s3, events[3]);
    assert Enabled(sys, events[0]) && Enabled(s1, events[1]) && Enabled(s2, events[2]);
    assert !Exchanges(sys, life, events[0], t) && !Exchanges(s1, life, events[1], t) && !Exchanges(s2, life, events[2], t);
    hide Next, Enabled, Exchanges;
    assert events[1..][1..] == events[2..] && events[2..][1..] == events[3..] && events[3..][1..] == [];
    assert ExchangeCount(s3, life, events[3..], t) == 1 && Valid(s3, life, events[3..]);
    assert ExchangeCount(s2, life, events[2..], t) == 1 && Valid(s2, life, events[2..]);
    assert ExchangeCount(s1, life, events[1..], t) == 1 && Valid(s1, life, events[1..]);
  }

  lemma ExchangeLeaves(sys: System, life: Lifetimes, e: Event)
    requires Inv(sys) && Enabled(sys, e) && e.Refresh? && Exchanges(sys, life, e, e.token)
    ensures var next := Next(sys, life, e);
            && e.token in next.minted && e.token.refresh && Usable(next.state.users, e.token) && next.now == sys.now
            && e.token.generation >= next.state.users[e.token.subject].generation
            && (LifeLeft(e.token, sys.now) <= 1.0 ==> Chances(next, e.token) == 0)
  {
  }

  /** After an exchange some continuation exchanges the same token once more exactly when it
      had more than a second to live. */
  lemma ExchangedAgainIff(sys: System, life: Lifetimes, e: Event, names: Names)
    requires Inv(sys) && Enabled(sys, e) && e.Refresh? && Exchanges(sys, life, e, e.token)
    requires FreshNames(Next(sys, life, e), names)
    ensures var next := Next(sys, life, e);
            (exists events :: Valid(next, life, events) && ExchangeCount(next, life, events, e.token) > 0)
            <==> LifeLeft(e.token, sys.now) > 1.0
  {
    var (next, t) := (Next(sys, life, e), e.token);
    StepKeepsInv(sys, life, e);
    ExchangeLeaves(sys, life, e);
    hide Next, Inv, Chances, FreshNames;
    if LifeLeft(t, sys.now) > 1.0 {
      ComebackExchanges(next, life, t, names);
    }
    forall events | Valid(next, life, events)
      ensures ExchangeCount(next, life, events, t) <= Chances(next, t)
    {
      ExchangedAtMostTwice(next, life, events, t);
    }
  }

  // -- on full seconds -----------------------------------------------------

  /** Every revocation of `t` in the run outlives it. */
  predicate RevokedOnTime(sys: System, life: Lifetimes, events: seq<Event>, t: Claims)
    decreases |events|
  {
    events != [] ==> OnTime(sys, events[0], t) && RevokedOnTime(Next(sys, life, events[0]), life, events[1..], t)
  }

  predicate OnTime(sys: System, e: Event, t: Claims) {
    (e.Refresh? || e.Logout?) && e.token == t ==> LifeLeft(t, sys.now) <= 1.0 || Whole(sys.now)
  }

  /** The token has expired or is revoked for the rest of its life. */
  predicate Spent(sys: System, t: Claims) {
    || LifeLeft(t, sys.now) <= 0.0
    || (t.jti in sys.state.revoked && sys.state.revoked[t.jti] >= t.expiresAt as real)
  }

  /** Neither pruning nor a lapsed lookup forgets such a revocation before the token expires. */
  lemma SpentStaysSpent(sys: System, life: Lifetimes, e: Event, t: Claims)
    requires Inv(sys) && Enabled(sys, e) && t in sys.minted && OnTime(sys, e, t)
    ensures Spent(sys, t) ==> Spent(Next(sys, life, e), t) && !Exchanges(sys, life, e, t)
    ensures Exchanges(sys, life, e, t) ==> Spent(Next(sys, life, e), t)
  {
    if (e.Refresh? || e.Logout?) && Decodes(e.token, sys.now) {
      TtlOutlivesIff(e.token, sys.now);
    }
    hide Whole, RemainingTtl;
  }

  lemma MintedStays(sys: System, life: Lifetimes, e: Event)
    ensures sys.minted <= Next(sys, life, e).minted
  {
  }

  /** A token all of whose revocations outlive it is exchanged at most once. */
  lemma {:induction false} ExchangedAtMostOnce(sys: System, life: Lifetimes, events: seq<Event>, t: Claims)
    requires Inv(sys) && Valid(sys, life, events) && RevokedOnTime(sys, life, events, t)
    ensures ExchangeCount(sys, life, events, t) <= if t in sys.minted && Spent(sys, t) then 0 else 1
    decreases |events|
  {
    hide Inv, Enabled, Spent, Exchanges, OnTime;
    if events != [] {
      StepKeepsInv(sys, life, events[0]);
      MintedStays(sys, life, events[0]);
      if t in sys.minted {
        SpentStaysSpent(sys, life, events[0], t);
      } else if Exchanges(sys, life, events[0], t) {
        ExchangedIsMinted(sys, life, events[0], t);
      }
      ExchangedAtMostOnce(Next(sys, life, events[0]), life, events[1..], t);
    }
  }

  /** The clock stands on full seconds throughout. */
  predicate FullSeconds(sys: System, events: seq<Event>) {
    Whole(sys.now) && forall e | e in events && e.Tick? :: Whole(e.seconds)
  }

  lemma WholeSum(x: real, y: real)
    requires Whole(x) && Whole(y)
    ensures Whole(x + y)
  {
    FloorIs(x + y, x.Floor + y.Floor);
  }

  lemma FullSecondsNow(sys: System, events: seq<Event>)
    requires FullSeconds(sys, events)
    ensures Whole(sys.now)
  {
  }

  lemma FullSecondsStep(sys: System, life: Lifetimes, events: seq<Event>)
    requires FullSeconds(sys, events) && events != []
    ensures FullSeconds(Next(sys, life, events[0]), events[1..])
  {
    var e := events[0];
    assert e in events;
    if e.Tick? {
      WholeSum(sys.now, e.seconds);
    }
    hide Whole;
  }

  lemma {:induction false} FullSecondsOnTime(sys: System, life: Lifetimes, events: seq<Event>, t: Claims)
    requires FullSeconds(sys, events)
    ensures RevokedOnTime(sys, life, events, t)
    decreases |events|
  {
    hide Next, Whole;
    if events != [] {
      FullSecondsStep(sys, life, events);
      FullSecondsOnTime(Next(sys, life, events[0]), life, events[1..], t);
    }
  }

  /** On a clock of full seconds every refresh token is exchanged at most once. */
  lemma FullSecondsExchangeOnce(sys: System, life: Lifetimes, events: seq<Event>, t: Claims)
    requires Unused(sys) && Valid(sys, life, events) && FullSeconds(sys, events)
    ensures ExchangeCount(sys, life, events, t) <= 1
  {
    FullSecondsOnTime(sys, life, events, t);
    ExchangedAtMostOnce(sys, life, events, t);
  }

  // -- reuse ends every session minted so far ----------------------------

  /** A live token that was already revoked is presented for a refresh. */
  predicate Reuses(sys: System, e: Event, user: Id) {
    && e.Refresh? && e.token.subject == user && Decodes(e.token, sys.now) && Usable(sys.state.users, e.token)
    && HoldsRevoked(sys.state.revoked, sys.now, e.token.jti)
  }

  predicate Outdated(sys: System, t: Claims) {
    t.subject in sys.state.users && t.generation < sys.state.users[t.subject].generation
  }

  lemma ReuseOutdates(sys: System, life: Lifetimes, e: Event, t: Claims)
    requires Inv(sys) && t in sys.minted && Reuses(sys, e, t.subject)
    ensures Outdated(Next(sys, life, e), t)
  {
  }

  lemma {:induction false} OutdatedNeverExchanged(sys: System, life: Lifetimes, events: seq<Event>, t: Claims)
    requires Outdated(sys, t)
    ensures ExchangeCount(sys, life, events, t) == 0 && Outdated(Run(sys, life, events), t)
    decreases |events|
  {
    if events != [] {
      OutdatedNeverExchanged(Next(sys, life, events[0]), life, events[1..], t);
    }
  }

  /** Once a revoked token is presented, no token minted before for that user is ever
      exchanged again. */
  lemma ReuseEndsSessions(sys: System, life: Lifetimes, reuse: Event, events: seq<Event>, t: Claims)
    requires Inv(sys) && t in sys.minted && Reuses(sys, reuse, t.subject)
    ensures ExchangeCount(sys, life, [reuse] + events, t) == 0
  {
    ReuseOutdates(sys, life, reuse, t);
    OutdatedNeverExchanged(Next(sys, life, reuse), life, events, t);
    assert ([reuse] + events)[1..] == events;
  }

  // -- how many sessions a user can renew --------------------------------

  /** The refresh tokens of a user that would be exchanged right now. */
  function Renewable(sys: System, user: Id): set<Claims> {
    set t | t in sys.minted && t.subject == user && Decodes(t, sys.now) && Usable(sys.state.users, t)
            && !HoldsRevoked(sys.state.revoked, sys.now, t.jti) && !Outdated(sys, t)
  }

  /** Logins of `user` since its sessions were last invalidated, `n` of them before this. */
  function LoginsSinceReset(sys: System, life: Lifetimes, events: seq<Event>, user: Id, n: nat): nat
    decreases |events|
  {
    if events == [] then n
    else
      var n' := if Reuses(sys, events[0], user) then 0
                else if events[0].Login? && events[0].user == user then n + 1 else n;
      LoginsSinceReset(Next(sys, life, events[0]), life, events[1..], user, n')
  }

  /** The tokens of a user whose revocation lapses, by the passing of time, before they expire. */
  function Lapsing(sys: System, e: Event, user: Id): set<Claims> {
    if !e.Tick? then {}
    else set t | t in sys.minted && t.subject == user && HoldsRevoked(sys.state.revoked, sys.now, t.jti)
                 && !HoldsRevoked(sys.state.revoked, sys.now + e.seconds, t.jti) && Decodes(t, sys.now + e.seconds)
  }

  /** How many have lapsed since the sessions were last invalidated, `k` of them before this. */
  function LapsesSinceReset(sys: System, life: Lifetimes, events: seq<Event>, user: Id, k: nat): nat
    decreases |events|
  {
    if events == [] then k
    else
      var k' := if Reuses(sys, events[0], user) then 0 else k + |Lapsing(sys, events[0], user)|;
      LapsesSinceReset(Next(sys, life, events[0]), life, events[1..], user, k')
  }

  lemma RenewableExactly(sys: System, life: Lifetimes, t: Claims, names: Names)
    requires t in sys.minted
    ensures t in Renewable(sys, t.subject) <==> Refreshed(sys.state, t, life, sys.now, names).1.Ok?
  {
  }

  lemma SubsetSize<T>(a: set<T>, b: set<T>)
    requires a <= b
    ensures |a| <= |b|
  {
    assert b == a + (b - a);
  }

  /** The refresh token an event mints for the user, if any. */
  function MintedFor(sys: System, life: Lifetimes, e: Event, user: Id): set<Claims> {
    if user in sys.state.users
       && ((e.Login? && e.user == user) || (e.Refresh? && e.token.subject == user && Exchanges(sys, life, e, e.token)))
    then {IssuePair(user, sys.state.users[user].generation, life, sys.now, e.names).refresh}
    else {}
  }

  /** Nothing becomes renewable except a token just minted for that user, or one whose
      revocation has just lapsed. */
  lemma OnlyNewTokensRenewable(sys: System, life: Lifetimes, e: Event, user: Id, t: Claims)
    requires Inv(sys) && Enabled(sys, e) && t in Renewable(Next(sys, life, e), user)
    ensures !Reuses(sys, e, user)
    ensures t in Renewable(sys, user) + Lapsing(sys, e, user) + MintedFor(sys, life, e, user)
  {
  }

  lemma ExchangeRetires(sys: System, life: Lifetimes, e: Event)
    requires Inv(sys) && Enabled(sys, e) && e.Refresh? && Exchanges(sys, life, e, e.token)
    ensures e.token in Renewable(sys, e.token.subject)
    ensures e.token !in Renewable(Next(sys, life, e), e.token.subject)
  {
  }

  lemma OneMinted(sys: System, life: Lifetimes, e: Event, user: Id)
    ensures |MintedFor(sys, life, e, user)| <= 1 && (MintedFor(sys, life, e, user) != {} ==> Lapsing(sys, e, user) == {})
    ensures MintedFor(sys, life, e, user) != {} && !(e.Login? && e.user == user) ==>
      e.Refresh? && e.token.subject == user && Exchanges(sys, life, e, e.token)
  {
  }

  lemma UnionSize<T>(a: set<T>, b: set<T>)
    ensures |a + b| <= |a| + |b|
  {
    assert a + b == a + (b - a);
    SubsetSize(b - a, b);
  }

  lemma RenewableStep(sys: System, life: Lifetimes, e: Event, user: Id)
    requires Inv(sys) && Enabled(sys, e)
    ensures var (was, now) := (|Renewable(sys, user)|, |Renewable(Next(sys, life, e), user)|);
            && (Reuses(sys, e, user) ==> now == 0)
            && now <= was + |Lapsing(sys, e, user)| + if e.Login? && e.user == user then 1 else 0
  {
    var (was, now) := (Renewable(sys, user), Renewable(Next(sys, life, e), user));
    var (lapsing, minted) := (Lapsing(sys, e, user), MintedFor(sys, life, e, user));
    forall t | t in now ensures !Reuses(sys, e, user) && t in was + lapsing + minted {
      OnlyNewTokensRenewable(sys, life, e, user, t);
    }
    OneMinted(sys, life, e, user);
    hide Renewable, Inv, Next, Exchanges, Reuses, Lapsing, MintedFor;
    if minted != {} && !(e.Login? && e.user == user) {
      ExchangeRetires(sys, life, e);
      SubsetSize(now, was - {e.token} + minted);
      UnionSize(was - {e.token}, minted);
    } else {
      SubsetSize(now, was + lapsing + minted);
      UnionSize(was + lapsing, minted);
      UnionSize(was, lapsing);
    }
    assert Reuses(sys, e, user) ==> now == {};
  }

  /** A user never has more renewable sessions than logins, and revocations that lapsed
      early, since the last invalidation. */
  lemma {:induction false} RenewableWithinLogins(sys: System, life: Lifetimes, events: seq<Event>, user: Id, n: nat, k: nat)
    requires Inv(sys) && Valid(sys, life, events) && |Renewable(sys, user)| <= n + k
    ensures |Renewable(Run(sys, life, events), user)|
            <= LoginsSinceReset(sys, life, events, user, n) + LapsesSinceReset(sys, life, events, user, k)
    decreases |events|
  {
    hide Inv, Enabled, Renewable, Reuses, Lapsing;
    if events != [] {
      StepKeepsInv(sys, life, events[0]);
      RenewableStep(sys, life, events[0], user);
      var reset := Reuses(sys, events[0], user);
      var n' := if reset then 0 else if events[0].Login? && events[0].user == user then n + 1 else n;
      var k' := if reset then 0 else k + |Lapsing(sys, events[0], user)|;
      RenewableWithinLogins(Next(sys, life, events[0]), life, events[1..], user, n', k');
    }
  }

  /** Every revocation on record outlives its token. */
  predicate NoEarlyLapse(sys: System) {
    forall t | t in sys.minted && t.jti in sys.state.revoked :: sys.state.revoked[t.jti] >= t.expiresAt as real
  }

  lemma NoEarlyLapseStep(sys: System, life: Lifetimes, e: Event, user: Id)
    requires Inv(sys) && Enabled(sys, e) && NoEarlyLapse(sys) && Whole(sys.now)
    ensures NoEarlyLapse(Next(sys, life, e)) && Lapsing(sys, e, user) == {}
  {
    if (e.Refresh? || e.Logout?) && Decodes(e.token, sys.now) {
      TtlOutlivesIff(e.token, sys.now);
    }
    hide Whole, RemainingTtl;
  }

  lemma {:induction false} FullSecondsNeverLapse(sys: System, life: Lifetimes, events: seq<Event>, user: Id)
    requires Inv(sys) && Valid(sys, life, events) && NoEarlyLapse(sys) && FullSeconds(sys, events)
    ensures LapsesSinceReset(sys, life, events, user, 0) == 0
    decreases |events|
  {
    hide Inv, NoEarlyLapse, Enabled, Lapsing, Reuses, Next, FullSeconds;
    if events != [] {
      assert Whole(sys.now) by {
        FullSecondsNow(sys, events);
      }
      FullSecondsStep(sys, life, events);
      StepKeepsInv(sys, life, events[0]);
      NoEarlyLapseStep(sys, life, events[0], user);
      FullSecondsNeverLapse(Next(sys, life, events[0]), life, events[1..], user);
    }
  }

  /** On a clock of full seconds logins alone bound the renewable sessions. */
  lemma FullSecondsRenewable(sys: System, life: Lifetimes, events: seq<Event>, user: Id)
    requires Unused(sys) && Valid(sys, life, events) && FullSeconds(sys, events)
    ensures |Renewable(Run(sys, life, events), user)| <= LoginsSinceReset(sys, life, events, user, 0)
  {
    assert Renewable(sys, user) == {};
    RenewableWithinLogins(sys, life, events, user, 0, 0);
    FullSecondsNeverLapse(sys, life, events, user);
  }

  const LIVES := Lifetimes(1, 100)
  const START := System(State(map[0 := User(true, 0)], map[]), {}, 0.0)
  const TOKEN := Claims(0, true, 2, 0, 100)

  const FORK := [Login(0, Names(1, 2)), Tick(98.5), Refresh(TOKEN, Names(3, 4)), Tick(1.1), Refresh(TOKEN, Names(5, 6))]

  lemma ForkBegins() returns (s1: System, s2: System, s3: System)
    ensures Enabled(START, FORK[0]) && s1 == Next(START, LIVES, FORK[0])
    ensures Enabled(s1, FORK[1]) && s2 == Next(s1, LIVES, FORK[1])
    ensures Enabled(s2, FORK[2]) && s3 == Next(s2, LIVES, FORK[2]) && Exchanges(s2, LIVES, FORK[2], TOKEN)
    ensures !Reuses(s2, FORK[2], 0)
    ensures s3 == System(State(map[0 := User(true, 0)], map[2 := 99.5]),
                         {Claims(0, false, 1, 0, 1), TOKEN, Claims(0, false, 3, 0, 99), Claims(0, true, 4, 0, 198)}, 98.5)
  {
    s1 := Next(START, LIVES, FORK[0]);
    s2 := Next(s1, LIVES, FORK[1]);
    assert RemainingTtl(TOKEN, 98.5) == 1;
    s3 := Next(s2, LIVES, FORK[2]);
  }

  lemma ForkEnds(s3: System) returns (s4: System, s5: System)
    requires s3 == System(State(map[0 := User(true, 0)], map[2 := 99.5]),
                          {Claims(0, false, 1, 0, 1), TOKEN, Claims(0, false, 3, 0, 99), Claims(0, true, 4, 0, 198)}, 98.5)
    ensures Enabled(s3, FORK[3]) && s4 == Next(s3, LIVES, FORK[3])
    ensures Enabled(s4, FORK[4]) && s5 == Next(s4, LIVES, FORK[4]) && Exchanges(s4, LIVES, FORK[4], TOKEN)
    ensures !Reuses(s4, FORK[4], 0)
    ensures Renewable(s5, 0) == {Claims(0, true, 4, 0, 198), Claims(0, true, 6, 0, 199)}
  {
    s4 := Next(s3, LIVES, FORK[3]);
    assert RemainingTtl(TOKEN, 99.6) == 1;
    s5 := Next(s4, LIVES, FORK[4]);
  }

  /** A token expiring at 100.0 is refreshed at 98.5, its revocation lapses at 99.5, and it is
      refreshed again at 99.6: two exchanges, and two sessions from one login. */
  lemma LapseForksSession()
    ensures Unused(START) && Valid(START, LIVES, FORK) && ExchangeCount(START, LIVES, FORK, TOKEN) == 2
    ensures LoginsSinceReset(START, LIVES, FORK, 0, 0) == 1 && |Renewable(Run(START, LIVES, FORK), 0)| == 2
  {
    var s1, s2, s3 := ForkBegins();
    var s4, s5 := ForkEnds(s3);
    var events := FORK;
    assert !events[0].Refresh? && !events[1].Refresh? && !events[3].Refresh?;
    hide Next, Enabled, Exchanges, Reuses, Renewable, FORK, START;
    assert !Exchanges(START, LIVES, events[0], TOKEN) && !Exchanges(s1, LIVES, events[1], TOKEN)
        && !Exchanges(s3, LIVES, events[3], TOKEN) && !Reuses(START, events[0], 0) && !Reuses(s1, events[1], 0)
        && !Reuses(s3, events[3], 0) by {
      OnlyRefreshes(START, LIVES, events[0], TOKEN, 0);
      OnlyRefreshes(s1, LIVES, events[1], TOKEN, 0);
      OnlyRefreshes(s3, LIVES, events[3], TOKEN, 0);
    }
    assert events[1..][1..] == events[2..] && events[2..][1..] == events[3..];
    assert events[3..][1..] == events[4..] && events[4..][1..] == [];
    assert Run(s4, LIVES, events[4..]) == s5 && Run(s3, LIVES, events[3..]) == s5 && Run(s2, LIVES, events[2..]) == s5;
    assert Run(s1, LIVES, events[1..]) == s5;
    assert Valid(s4, LIVES, events[4..]) && Valid(s3, LIVES, events[3..]) && Valid(s2, LIVES, events[2..]);
    assert Valid(s1, LIVES, events[1..]);
    assert ExchangeCount(s4, LIVES, events[4..], TOKEN) == 1 && ExchangeCount(s3, LIVES, events[3..], TOKEN) == 1;
    assert ExchangeCount(s2, LIVES, events[2..], TOKEN) == 2 && ExchangeCount(s1, LIVES, events[1..], TOKEN) == 2;
    assert LoginsSinceReset(s4, LIVES, events[4..], 0, 1) == 1 && LoginsSinceReset(s3, LIVES, events[3..], 0, 1) == 1;
    assert LoginsSinceReset(s2, LIVES, events[2..], 0, 1) == 1 && LoginsSinceReset(s1, LIVES, events[1..], 0, 1) == 1;
  }

  lemma OnlyRefreshes(sys: System, life: Lifetimes, e: Event, t: Claims, user: Id)
    ensures !e.Refresh? ==> !Exchanges(sys, life, e, t) && !Reuses(sys, e, user)
  {
  }

  lemma {:induction false} GenerationsNeverDecrease(sys: System, life: Lifetimes, events: seq<Event>, user: Id)
    requires user in sys.state.users
    ensures user in Run(sys, life, events).state.users
    ensures Run(sys, life, events).state.users[user].generation >= sys.state.users[user].generation
    decreases |events|
  {
    if events != [] {
      GenerationsNeverDecrease(Next(sys, life, events[0]), life, events[1..], user);
    }
  }
}
