/** Locking an identity out after too many failed logins: a process-local backend and one
    shared through a key-value server, under one bound. */
module LoginThrottles {
  import opened Models
  import Text

  datatype Settings = Settings(maxAttempts: int, lockoutSeconds: int)

  function Normalise(identity: string): string {
    Text.Lower(Text.Strip(identity))
  }

  /** Only ASCII case, and blanks around an identity, are ignored. */
  lemma NormalisedExactly(left: string, s: string, right: string)
    requires Text.AllBlank(left) && Text.AllBlank(right) && Text.Trimmed(s)
    ensures |Normalise(left + s + right)| == |s|
    ensures forall i | 0 <= i < |s| ::
      Normalise(left + s + right)[i] == if 'A' <= s[i] <= 'Z' then s[i] - 'A' + 'a' else s[i]
  {
    Text.StripPadded(left, s, right);
    Text.LowerFolds(s);
    hide Text.Lower, Text.Strip, Text.IsBlank;
  }

  // -- the process-local backend -----------------------------------------

  datatype Entry = Entry(failures: nat, lockedUntil: real)

  const CLEAN := Entry(0, 0.0)

  predicate Locked(e: Entry, now: real) {
    e.lockedUntil != 0.0 && now < e.lockedUntil
  }

  /** Checking the lock forgets an entry whose lock has expired. */
  function AfterCheck(e: Entry, now: real): Entry {
    if e.lockedUntil != 0.0 && now >= e.lockedUntil then CLEAN else e
  }

  function AfterFailure(e: Entry, s: Settings, now: real): Entry {
    var failures := e.failures + 1;
    Entry(failures, if failures >= s.maxAttempts then now + s.lockoutSeconds as real else e.lockedUntil)
  }

  class InMemoryLoginThrottle {
    const settings: Settings
    var entries: map<string, Entry>

    constructor (settings: Settings)
      ensures this.settings == settings && entries == map[]
    {
      this.settings := settings;
      entries := map[];
    }

    function EntryOf(identity: string): Entry
      reads this
    {
      var key := Normalise(identity);
      if key in entries then entries[key] else CLEAN
    }

    method IsLocked(identity: string, now: real) returns (locked: bool)
      modifies this
      ensures locked == Locked(old(EntryOf(identity)), now)
      ensures EntryOf(identity) == AfterCheck(old(EntryOf(identity)), now)
      ensures entries - {Normalise(identity)} == old(entries) - {Normalise(identity)}
    {
      var key := Normalise(identity);
      if key !in entries || entries[key].lockedUntil == 0.0 {
        return false;
      }
      if now < entries[key].lockedUntil {
        return true;
      }
      entries := entries - {key};
      return false;
    }

    method RecordFailure(identity: string, now: real)
      modifies this
      ensures EntryOf(identity) == AfterFailure(old(EntryOf(identity)), settings, now)
      ensures entries - {Normalise(identity)} == old(entries) - {Normalise(identity)}
    {
      var key := Normalise(identity);
      var entry := if key in entries then entries[key] else Entry(0, 0.0);
      entry := entry.(failures := entry.failures + 1);
      if entry.failures >= settings.maxAttempts {
        entry := entry.(lockedUntil := now + settings.lockoutSeconds as real);
      }
      entries := entries[key := entry];
      assert entries - {key} == old(entries) - {key};
    }

    method RecordSuccess(identity: string)
      modifies this
      ensures entries == old(entries) - {Normalise(identity)} && EntryOf(identity) == CLEAN
    {
      entries := entries - {Normalise(identity)};
    }
  }

  // -- the shared backend ------------------------------------------------

  /** The two keys of one identity with the time each expires. */
  datatype Keys = Keys(count: nat, countUntil: real, lockUntil: real)

  const NO_KEYS := Keys(0, 0.0, 0.0)

  /** INCR and EXPIRE of the failure key, in one round trip. */
  function Counted(k: Keys, s: Settings, now: real): Keys {
    k.(count := (if now < k.countUntil then k.count else 0) + 1, countUntil := now + s.lockoutSeconds as real)
  }

  /** Setting the lock key, in a second round trip. */
  function LockSet(k: Keys, s: Settings, now: real): Keys {
    k.(lockUntil := now + AtLeastOne(s.lockoutSeconds) as real)
  }

  class RedisLoginThrottle {
    const settings: Settings
    var keys: map<string, Keys>

    constructor (settings: Settings)
      ensures this.settings == settings && keys == map[]
    {
      this.settings := settings;
      keys := map[];
    }

    function KeysOf(identity: string): Keys
      reads this
    {
      var key := Normalise(identity);
      if key in keys then keys[key] else NO_KEYS
    }

    method IsLocked(identity: string, now: real) returns (locked: bool)
      ensures locked == (now < KeysOf(identity).lockUntil)
    {
      locked := now < KeysOf(identity).lockUntil;
    }

    /** `now` and `later` are the times of the two round trips. */
    method RecordFailure(identity: string, now: real, later: real)
      modifies this
      ensures var counted := Counted(old(KeysOf(identity)), settings, now);
              KeysOf(identity) == if counted.count >= settings.maxAttempts then LockSet(counted, settings, later)
                                  else counted
      ensures keys - {Normalise(identity)} == old(keys) - {Normalise(identity)}
    {
      var key := Normalise(identity);
      keys := keys[key := Counted(KeysOf(identity), settings, now)];
      assert keys - {key} == old(keys) - {key};
      if keys[key].count >= settings.maxAttempts {
        keys := keys[key := LockSet(keys[key], settings, later)];
        assert keys - {key} == old(keys) - {key};
      }
    }

    method RecordSuccess(identity: string)
      modifies this
      ensures keys == old(keys) - {Normalise(identity)} && KeysOf(identity) == NO_KEYS
    {
      keys := keys - {Normalise(identity)};
    }
  }

  // -- failed logins of one identity, process-local -----------------------

  datatype Attempt =
    | Start    // a login passes, or is stopped by, the lock check
    | Failure  // a login that passed records its failure
    | Leave    // a login that passed ends without a record, as one without its second factor does

  /** The entry, how many logins are between check and outcome, and the clock. */
  datatype Local = Local(entry: Entry, inFlight: nat, now: real)

  const IDLE := Local(CLEAN, 0, 0.0)

  type LocalTrace = seq<(real, Attempt)>

  function LocalNext(l: Local, s: Settings, at: real, a: Attempt): Local {
    match a
    case Start => Local(AfterCheck(l.entry, at), if Locked(l.entry, at) then l.inFlight else l.inFlight + 1, at)
    case Failure => Local(AfterFailure(l.entry, s, at), if l.inFlight > 0 then l.inFlight - 1 else 0, at)
    case Leave => l.(inFlight := if l.inFlight > 0 then l.inFlight - 1 else 0, now := at)
  }

  /** The clock runs forward, only logins in flight end, and never more than `c` are. */
  predicate LocalValid(l: Local, s: Settings, c: nat, trace: LocalTrace)
    decreases |trace|
  {
    trace != [] ==>
      var next := LocalNext(l, s, trace[0].0, trace[0].1);
      && trace[0].0 >= l.now && (!trace[0].1.Start? ==> l.inFlight > 0)
      && next.inFlight <= c && LocalValid(next, s, c, trace[1..])
  }

  /** The failures recorded in [from, from + lockoutSeconds). */
  function LocalFailures(s: Settings, trace: LocalTrace, from: real): nat
    decreases |trace|
  {
    if trace == [] then 0
    else (if trace[0].1.Failure? && from <= trace[0].0 < from + s.lockoutSeconds as real then 1 else 0)
         + LocalFailures(s, trace[1..], from)
  }

  function Threshold(s: Settings): nat {
    AtLeastOne(s.maxAttempts)
  }

  /** Whether the threshold is reached shows in the lock field. */
  predicate LocalSound(l: Local, s: Settings, c: nat) {
    && l.now >= 0.0 && l.inFlight <= c && l.entry.lockedUntil >= 0.0
    && (l.entry.lockedUntil == 0.0 <==> l.entry.failures < Threshold(s))
  }

  /** Inside the window: either the lock has not been set in it, and the failures counted so
      far are on the counter; or it has, and outlasts it, so only logins in flight remain. */
  predicate LocalWindow(l: Local, s: Settings, c: nat, from: real, n: nat) {
    || (if l.entry.lockedUntil == 0.0 then n <= l.entry.failures else n == 0)
    || (l.entry.lockedUntil >= from + s.lockoutSeconds as real && n + l.inFlight <= Threshold(s) + c - 1)
  }

  lemma {:induction false} LocalBound(l: Local, s: Settings, c: nat, trace: LocalTrace, from: real, n: nat)
    requires c >= 1 && s.lockoutSeconds >= 1 && LocalSound(l, s, c) && LocalValid(l, s, c, trace)
    requires n <= Threshold(s) + c - 1 && (l.now < from ==> n == 0)
    requires l.now < from + s.lockoutSeconds as real ==> LocalWindow(l, s, c, from, n)
    ensures n + LocalFailures(s, trace, from) <= Threshold(s) + c - 1
    decreases |trace|
  {
    if trace != [] {
      var (at, a) := trace[0];
      var n' := if a.Failure? && from <= at < from + s.lockoutSeconds as real then n + 1 else n;
      LocalBound(LocalNext(l, s, at, a), s, c, trace[1..], from, n');
    }
  }

  /** With at most `c` logins of an identity in flight and none succeeding, at most
      maxAttempts + c - 1 failures are recorded in any lockoutSeconds. */
  lemma LocalGuessesBounded(s: Settings, c: nat, trace: LocalTrace, from: real)
    requires c >= 1 && LocalValid(IDLE, s, c, trace)
    ensures LocalFailures(s, trace, from) <= Threshold(s) + c - 1
  {
    if s.lockoutSeconds >= 1 {
      LocalBound(IDLE, s, c, trace, from, 0);
    } else {
      EmptyWindow(s, trace, from);
    }
  }

  lemma {:induction false} EmptyWindow(s: Settings, trace: LocalTrace, from: real)
    requires s.lockoutSeconds < 1
    ensures LocalFailures(s, trace, from) == 0
    decreases |trace|
  {
    if trace != [] {
      EmptyWindow(s, trace[1..], from);
    }
  }

  // -- failed logins of one identity, shared ------------------------------

  datatype SharedAttempt =
    | Begin    // the lock check
    | Count    // the first round trip of recording a failure
    | SetLock  // the second, when the counter reached the threshold
    | Lose     // the second fails, and no lock is set
    | Quit     // a login that passed ends without a record

  /** The keys, the logins that have not failed yet, and those about to set the lock. */
  datatype Shared = Shared(keys: Keys, waiting: nat, locking: nat, now: real)

  const NOBODY := Shared(NO_KEYS, 0, 0, 0.0)

  type SharedTrace = seq<(real, SharedAttempt)>

  function SharedNext(h: Shared, s: Settings, at: real, a: SharedAttempt): Shared {
    match a
    case Begin => h.(waiting := if at < h.keys.lockUntil then h.waiting else h.waiting + 1, now := at)
    case Count =>
      var counted := Counted(h.keys, s, at);
      Shared(counted, if h.waiting > 0 then h.waiting - 1 else 0,
             if counted.count >= s.maxAttempts then h.locking + 1 else h.locking, at)
    case Quit => h.(waiting := if h.waiting > 0 then h.waiting - 1 else 0, now := at)
    case Lose => h.(locking := if h.locking > 0 then h.locking - 1 else 0, now := at)
    case SetLock => Shared(LockSet(h.keys, s, at), h.waiting, if h.locking > 0 then h.locking - 1 else 0, at)
  }

  predicate SharedValid(h: Shared, s: Settings, c: nat, trace: SharedTrace)
    decreases |trace|
  {
    trace != [] ==>
      var next := SharedNext(h, s, trace[0].0, trace[0].1);
      && trace[0].0 >= h.now && (trace[0].1.Count? || trace[0].1.Quit? ==> h.waiting > 0) && (trace[0].1.SetLock? || trace[0].1.Lose? ==> h.locking > 0)
      && next.waiting + next.locking <= c && SharedValid(next, s, c, trace[1..])
  }

  function SharedFailures(s: Settings, trace: SharedTrace, from: real): nat
    decreases |trace|
  {
    if trace == [] then 0
    else (if trace[0].1.Count? && from <= trace[0].0 < from + s.lockoutSeconds as real then 1 else 0)
         + SharedFailures(s, trace[1..], from)
  }

  /** The locks lost in [from, from + lockoutSeconds). */
  function LostLocks(s: Settings, trace: SharedTrace, from: real): nat
    decreases |trace|
  {
    if trace == [] then 0
    else (if trace[0].1.Lose? && from <= trace[0].0 < from + s.lockoutSeconds as real then 1 else 0)
         + LostLocks(s, trace[1..], from)
  }

  /** Inside the window, with `f` locks lost: either no lock was set in it, and the failures are
      on the counter, those past the threshold being about to set the lock or having lost it; or
      the lock outlasts it. */
  predicate SharedWindow(h: Shared, s: Settings, c: nat, from: real, n: nat, f: nat) {
    || (n <= Threshold(s) - 1 + h.locking + f
        && (n > 0 ==> n <= h.keys.count && h.keys.countUntil >= from + s.lockoutSeconds as real))
    || (h.keys.lockUntil >= from + s.lockoutSeconds as real && n + h.waiting <= Threshold(s) + c - 1 + f)
  }

  lemma {:induction false} SharedBound(h: Shared, s: Settings, c: nat, trace: SharedTrace, from: real, n: nat, f: nat)
    requires c >= 1 && s.lockoutSeconds >= 1 && h.waiting + h.locking <= c && SharedValid(h, s, c, trace)
    requires n <= Threshold(s) + c - 1 + f && (h.now < from ==> n == 0)
    requires h.now < from + s.lockoutSeconds as real ==> SharedWindow(h, s, c, from, n, f)
    ensures n + SharedFailures(s, trace, from) <= Threshold(s) + c - 1 + f + LostLocks(s, trace, from)
    decreases |trace|
  {
    if trace != [] {
      var (at, a) := trace[0];
      var inside := from <= at < from + s.lockoutSeconds as real;
      var (n', f') := (if a.Count? && inside then n + 1 else n, if a.Lose? && inside then f + 1 else f);
      SharedBound(SharedNext(h, s, at, a), s, c, trace[1..], from, n', f');
    }
  }

  /** The shared backend keeps the same bound, although it counts and locks in two steps,
      raised only by the locks that were lost. */
  lemma SharedGuessesBounded(s: Settings, c: nat, trace: SharedTrace, from: real)
    requires c >= 1 && SharedValid(NOBODY, s, c, trace)
    ensures SharedFailures(s, trace, from) <= Threshold(s) + c - 1 + LostLocks(s, trace, from)
  {
    if s.lockoutSeconds >= 1 {
      SharedBound(NOBODY, s, c, trace, from, 0, 0);
    } else {
      EmptySharedWindow(s, trace, from);
    }
  }

  lemma {:induction false} EmptySharedWindow(s: Settings, trace: SharedTrace, from: real)
    requires s.lockoutSeconds < 1
    ensures SharedFailures(s, trace, from) == 0
    decreases |trace|
  {
    if trace != [] {
      EmptySharedWindow(s, trace[1..], from);
    }
  }

  // -- what the shared lock means ------------------------------------------

  function SharedRun(h: Shared, s: Settings, trace: SharedTrace): Shared
    decreases |trace|
  {
    if trace == [] then h else SharedRun(SharedNext(h, s, trace[0].0, trace[0].1), s, trace[1..])
  }

  /** A lock set in the trace still stands at `now`. */
  predicate LockStands(s: Settings, trace: SharedTrace, now: real) {
    exists e | e in trace :: e.1.SetLock? && now < e.0 + AtLeastOne(s.lockoutSeconds) as real
  }

  lemma {:induction false} LockOutcome(h: Shared, s: Settings, c: nat, trace: SharedTrace, now: real)
    requires SharedValid(h, s, c, trace)
    requires h.keys.lockUntil <= h.now + AtLeastOne(s.lockoutSeconds) as real
    ensures now < SharedRun(h, s, trace).keys.lockUntil ==> LockStands(s, trace, now) || now < h.keys.lockUntil
    ensures LockStands(s, trace, now) || now < h.keys.lockUntil ==> now < SharedRun(h, s, trace).keys.lockUntil
    decreases |trace|
  {
    if trace != [] {
      var (e, next) := (trace[0], SharedNext(h, s, trace[0].0, trace[0].1));
      LockOutcome(next, s, c, trace[1..], now);
      assert e in trace && forall f :: f in trace <==> f == e || f in trace[1..];
    }
  }

  /** Without a success, an identity is locked exactly while some lock set for it is younger
      than the lockout. */
  lemma SharedLockedExactly(s: Settings, c: nat, trace: SharedTrace, now: real)
    requires SharedValid(NOBODY, s, c, trace) && now >= 0.0
    ensures now < SharedRun(NOBODY, s, trace).keys.lockUntil <==> LockStands(s, trace, now)
  {
    LockOutcome(NOBODY, s, c, trace, now);
  }

  // -- what the process-local lock means -------------------------------------

  function LocalRun(l: Local, s: Settings, trace: LocalTrace): Local {
    if trace == [] then l
    else
      var (at, a) := trace[|trace| - 1];
      LocalNext(LocalRun(l, s, trace[..|trace| - 1]), s, at, a)
  }

  function Failures(trace: LocalTrace): nat {
    if trace == [] then 0
    else Failures(trace[..|trace| - 1]) + if trace[|trace| - 1].1.Failure? then 1 else 0
  }

  predicate InOrder(trace: LocalTrace) {
    && (forall i | 0 <= i < |trace| :: trace[i].0 >= 0.0)
    && forall i, j | 0 <= i < j < |trace| :: trace[i].0 <= trace[j].0
  }

  /** From a clean entry nothing is locked before the threshold is reached, and every failure counts once. */
  lemma {:induction false} NoLockBeforeThreshold(s: Settings, trace: LocalTrace)
    requires Failures(trace) < Threshold(s)
    ensures LocalRun(IDLE, s, trace).entry == Entry(Failures(trace), 0.0)
    decreases |trace|
  {
    if trace != [] {
      NoLockBeforeThreshold(s, trace[..|trace| - 1]);
    }
  }

  /** The failure that reaches the threshold locks the identity for exactly the lockout. */
  lemma ThresholdLocks(s: Settings, trace: LocalTrace, at: real, now: real)
    requires s.lockoutSeconds >= 1 && Failures(trace) + 1 == Threshold(s) && 0.0 <= at <= now
    ensures var entry := LocalRun(IDLE, s, trace + [(at, Failure)]).entry;
            && (Locked(entry, now) <==> now < at + s.lockoutSeconds as real)
            && (!Locked(entry, now) ==> AfterCheck(entry, now) == CLEAN)
  {
    NoLockBeforeThreshold(s, trace);
    assert (trace + [(at, Failure)])[..|trace|] == trace;
  }

  /** Some failure of the trace that found the threshold reached locks until after `now`. */
  predicate LocalLockStands(s: Settings, trace: LocalTrace, now: real) {
    exists i :: 0 <= i < |trace| && LocksUntilAfter(s, trace, i, now)
  }

  predicate LocksUntilAfter(s: Settings, trace: LocalTrace, i: int, now: real)
    requires 0 <= i < |trace|
  {
    && trace[i].1.Failure? && now < trace[i].0 + s.lockoutSeconds as real
    && LocalRun(IDLE, s, trace[..i]).entry.failures + 1 >= s.maxAttempts
  }

  lemma {:induction false} LocalLockOutcome(s: Settings, trace: LocalTrace, now: real)
    requires s.lockoutSeconds >= 1 && InOrder(trace) && now >= 0.0 && (trace != [] ==> now >= trace[|trace| - 1].0)
    ensures var entry := LocalRun(IDLE, s, trace).entry;
            && (Locked(entry, now) <==> LocalLockStands(s, trace, now))
            && (trace != [] ==> entry.lockedUntil <= trace[|trace| - 1].0 + s.lockoutSeconds as real)
            && entry.lockedUntil >= 0.0
    decreases |trace|
  {
    if trace != [] {
      var (init, last) := (trace[..|trace| - 1], |trace| - 1);
      LocalLockOutcome(s, init, now);
      assert init == trace[..last];
      forall i | 0 <= i < last
        ensures LocksUntilAfter(s, init, i, now) <==> LocksUntilAfter(s, trace, i, now)
      {
        assert init[..i] == trace[..i];
      }
      assert LocalLockStands(s, trace, now) <==> LocalLockStands(s, init, now) || LocksUntilAfter(s, trace, last, now) by {
        if i :| 0 <= i < |init| && LocksUntilAfter(s, init, i, now) {
          assert LocksUntilAfter(s, trace, i, now);
        }
      }
    }
  }

  /** Without a success, an identity is locked exactly while a failure that found the threshold
      reached is younger than the lockout. */
  lemma LocalLockedExactly(s: Settings, trace: LocalTrace, now: real)
    requires s.lockoutSeconds >= 1 && InOrder(trace) && now >= 0.0 && (trace != [] ==> now >= trace[|trace| - 1].0)
    ensures Locked(LocalRun(IDLE, s, trace).entry, now) <==> LocalLockStands(s, trace, now)
  {
    LocalLockOutcome(s, trace, now);
  }

  // -- what the shared counter means -----------------------------------------

  /** The latest failures, each within the lockout of the one before. */
  function Streak(s: Settings, trace: SharedTrace): nat {
    if trace == [] then 0
    else
      var (init, (at, a)) := (trace[..|trace| - 1], trace[|trace| - 1]);
      if !a.Count? then Streak(s, init)
      else if LatestCount(init).Some? && at < LatestCount(init).value + s.lockoutSeconds as real then Streak(s, init) + 1
      else 1
  }

  function LatestCount(trace: SharedTrace): Option<real> {
    if trace == [] then None
    else if trace[|trace| - 1].1.Count? then Some(trace[|trace| - 1].0)
    else LatestCount(trace[..|trace| - 1])
  }

  lemma {:induction false} SharedRunOneMore(h: Shared, s: Settings, trace: SharedTrace, e: (real, SharedAttempt))
    ensures SharedRun(h, s, trace + [e]) == SharedNext(SharedRun(h, s, trace), s, e.0, e.1)
    decreases |trace|
  {
    hide SharedNext;
    if trace == [] {
      assert (trace + [e])[1..] == [];
    } else {
      assert (trace + [e])[1..] == trace[1..] + [e];
      SharedRunOneMore(SharedNext(h, s, trace[0].0, trace[0].1), s, trace[1..], e);
    }
  }

  /** The failure key counts exactly that streak, and only a failure that brings it to the
      threshold goes on to set the lock. */
  lemma {:induction false} CountsStreak(s: Settings, trace: SharedTrace)
    requires forall i | 0 <= i < |trace| :: trace[i].0 >= 0.0
    ensures var keys := SharedRun(NOBODY, s, trace).keys;
            && keys.count == Streak(s, trace)
            && (LatestCount(trace).Some? ==> keys.countUntil == LatestCount(trace).value + s.lockoutSeconds as real)
            && (LatestCount(trace).None? ==> keys.countUntil == 0.0)
    ensures trace != [] && trace[|trace| - 1].1.Count? ==>
      SharedRun(NOBODY, s, trace).locking
      == SharedRun(NOBODY, s, trace[..|trace| - 1]).locking + if Streak(s, trace) >= s.maxAttempts then 1 else 0
    decreases |trace|
  {
    if trace != [] {
      var (init, e) := (trace[..|trace| - 1], trace[|trace| - 1]);
      assert trace == init + [e];
      CountsStreak(s, init);
      SharedRunOneMore(NOBODY, s, init, e);
      hide SharedRun;
    }
  }
}
