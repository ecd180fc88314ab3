/** The sliding-window rate limiter: per-client queues of admission times, popped as
    they age and swept when a client falls silent. */
module RateLimiters {
  import opened Models

  const WINDOW := 60.0

  type Times = seq<real>

  /** How many of these admissions lie in the last WINDOW seconds. */
  function Recent(times: Times, now: real): nat
  {
    if times == [] then 0 else (if now - times[0] > WINDOW then 0 else 1) + Recent(times[1..], now)
  }

  predicate Ordered(times: Times) {
    forall i, j | 0 <= i < j < |times| :: times[i] <= times[j]
  }

  /** Dropping the aged admissions at the front. */
  function Popped(times: Times, now: real): Times {
    if times != [] && now - times[0] > WINDOW then Popped(times[1..], now) else times
  }

  /** What is sent back: admitted, or the Retry-After seconds. */
  datatype Reply = Admitted | Limited(retryAfter: int)

  function Truncate(x: real): int {
    if x >= 0.0 then x.Floor else -((-x).Floor)
  }

  function RetryAfter(bucket: Times, now: real): int {
    if bucket == [] then 60
    else
      var left := Truncate(WINDOW - (now - bucket[0]));
      if left < 0 then 0 else left
  }

  // -- the queue against the full history ---------------------------------

  /** The queue is the end of the admission history, and what it lacks has aged. */
  predicate Keeps(bucket: Times, history: Times, now: real) {
    && |bucket| <= |history| && bucket == history[|history| - |bucket|..]
    && forall i | 0 <= i < |history| - |bucket| :: now - history[i] > WINDOW
  }

  lemma {:induction false} RecentOfAll(times: Times, now: real)
    requires forall i | 0 <= i < |times| :: now - times[i] <= WINDOW
    ensures Recent(times, now) == |times|
    decreases |times|
  {
    if times != [] {
      RecentOfAll(times[1..], now);
    }
  }

  /** A queue that starts with a recent admission counts all recent admissions ever. */
  lemma {:induction false} QueueCountsHistory(bucket: Times, history: Times, now: real)
    requires Ordered(history) && Keeps(bucket, history, now)
    requires bucket == [] || now - bucket[0] <= WINDOW
    ensures Recent(history, now) == |bucket|
    decreases |history|
  {
    if |bucket| == |history| {
      assert bucket == history;
      RecentOfAll(history, now);
    } else {
      QueueCountsHistory(bucket, history[1..], now);
    }
  }

  lemma {:induction false} PoppedKeeps(bucket: Times, history: Times, now: real)
    requires Keeps(bucket, history, now) && Ordered(history)
    ensures Keeps(Popped(bucket, now), history, now)
    ensures Popped(bucket, now) == [] || now - Popped(bucket, now)[0] <= WINDOW
    ensures |Popped(bucket, now)| == Recent(history, now)
    decreases |bucket|
  {
    if bucket != [] && now - bucket[0] > WINDOW {
      PoppedKeeps(bucket[1..], history, now);
    } else {
      QueueCountsHistory(bucket, history, now);
    }
  }

  /** What the limiter knows of one client at time `now`. */
  predicate Tracks(bucket: Times, history: Times, now: real, limit: int) {
    && Ordered(history) && Keeps(bucket, history, now)
    && (history != [] ==> history[|history| - 1] <= now)
    && (bucket != [] ==> |bucket| <= limit)
  }

  /** Admission i + limit comes strictly more than a window after admission i. */
  predicate Spaced(history: Times, limit: int) {
    limit >= 1 ==> forall i: nat | i + limit < |history| :: history[i + limit] - history[i] > WINDOW
  }

  lemma TracksLater(bucket: Times, history: Times, now: real, later: real, limit: int)
    requires Tracks(bucket, history, now, limit) && now <= later
    ensures Tracks(bucket, history, later, limit)
  {
  }

  lemma {:induction false} PoppedShortens(bucket: Times, now: real)
    ensures |Popped(bucket, now)| <= |bucket|
    decreases |bucket|
  {
    if bucket != [] && now - bucket[0] > WINDOW {
      PoppedShortens(bucket[1..], now);
    }
  }

  lemma PoppedTracks(bucket: Times, history: Times, now: real, limit: int)
    requires Tracks(bucket, history, now, limit)
    ensures Tracks(Popped(bucket, now), history, now, limit)
    ensures |Popped(bucket, now)| == Recent(history, now)
    ensures Popped(bucket, now) == [] || now - Popped(bucket, now)[0] <= WINDOW
  {
    PoppedKeeps(bucket, history, now);
    PoppedShortens(bucket, now);
  }

  lemma AdmissionTracked(bucket: Times, history: Times, now: real, limit: int)
    requires Tracks(bucket, history, now, limit) && |bucket| < limit
    ensures Tracks(bucket + [now], history + [now], now, limit)
  {
  }

  /** A queue whose newest entry has aged may be forgotten. */
  lemma StaleForgotten(bucket: Times, history: Times, now: real, limit: int)
    requires Tracks(bucket, history, now, limit)
    requires Stale(bucket, now)
    ensures Tracks([], history, now, limit)
  {
  }

  /** Whole seconds until the `limit`-th last admission leaves the window. */
  predicate IsWait(history: Times, now: real, limit: int, seconds: int) {
    && 1 <= limit <= |history|
    && var left := WINDOW - (now - history[|history| - limit]);
       left >= 0.0 && seconds == left.Floor
  }

  /** A client's queue that no longer counts for anything. */
  predicate Stale(bucket: Times, now: real) {
    bucket == [] || now - bucket[|bucket| - 1] > WINDOW
  }

  /** The queues and the time of the last sweep, after a sweep if one is due. */
  function Swept(hits: map<Id, Times>, lastSweep: real, now: real): (map<Id, Times>, real) {
    if now - lastSweep < WINDOW then (hits, lastSweep)
    else (map c | c in hits && !Stale(hits[c], now) :: hits[c], now)
  }

  /** A sweep that is due keeps exactly the queues with an admission in the last minute. */
  lemma SweptKeepsLive(hits: map<Id, Times>, lastSweep: real, now: real, c: Id)
    requires forall d | d in hits :: Ordered(hits[d])
    ensures var (kept, swept) := Swept(hits, lastSweep, now);
            && (now - lastSweep < 60.0 ==> kept == hits && swept == lastSweep)
            && (now - lastSweep >= 60.0 ==>
                  && swept == now
                  && (c in kept <==> c in hits && exists i :: 0 <= i < |hits[c]| && now - hits[c][i] <= 60.0)
                  && (c in kept ==> kept[c] == hits[c]))
  {
    if c in hits && hits[c] != [] {
      assert hits[c][|hits[c]| - 1] in hits[c];
    }
  }

  class InMemoryRateLimiter {
    const limit: int
    const exempt: set<Id>
    var hits: map<Id, Times>
    var lastSweep: real
    /** Every admission ever counted, by client, and the latest time seen. */
    ghost var history: map<Id, Times>
    ghost var clock: real

    ghost function History(client: Id): Times
      reads `history
    {
      if client in history then history[client] else []
    }

    function Bucket(client: Id): Times
      reads `hits
    {
      if client in hits then hits[client] else []
    }

    ghost predicate Valid()
      reads `hits, `history, `clock
    {
      && (forall c: Id :: Tracks(Bucket(c), History(c), clock, limit))
      && (forall c: Id :: Spaced(History(c), limit))
    }

    constructor (limit: int, exempt: set<Id>)
      ensures Valid() && this.limit == limit && this.exempt == exempt
      ensures hits == map[] && history == map[] && clock == 0.0
    {
      this.limit := limit;
      this.exempt := exempt;
      hits, lastSweep := map[], 0.0;
      history, clock := map[], 0.0;
    }

    /** The limiter's own admissions are always spaced. */
    lemma HistorySpaced(client: Id, i: nat)
      requires Valid() && limit >= 1 && i + limit < |History(client)|
      ensures History(client)[i + limit] - History(client)[i] > 60.0
    {
      assert Spaced(History(client), limit);
    }

    /** The decision depends on the whole admission history and on nothing the limiter
        has popped or swept; a refusal names the wait for the oldest recent admission. */
    method Dispatch(path: Id, client: Id, now: real) returns (reply: Reply)
      requires Valid() && clock <= now
      modifies this
      ensures Valid()
      ensures path in exempt ==> reply.Admitted? && history == old(history) && clock == old(clock)
      ensures path !in exempt ==> clock == now
      ensures path !in exempt ==> (reply.Admitted? <==> Recent(old(History(client)), now) < limit)
      ensures path !in exempt && reply.Admitted? ==> history == old(history)[client := old(History(client)) + [now]]
      ensures path !in exempt && reply.Limited? ==> history == old(history)
      ensures path !in exempt && reply.Limited? && limit >= 1 ==>
        IsWait(History(client), now, limit, reply.retryAfter)
      ensures path !in exempt && reply.Limited? && limit < 1 ==> reply.retryAfter == 60
      ensures (hits, lastSweep) ==
        if path in exempt then (old(hits), old(lastSweep))
        else
          var bucket := Popped(old(Bucket(client)), now);
          if reply.Limited? then (old(hits)[client := bucket], old(lastSweep))
          else Swept(old(hits)[client := bucket + [now]], old(lastSweep), now)
    {
      if path in exempt {
        return Admitted;
      }
      hide Valid, Recent, RetryAfter, IsWait;
      var bucket := Age(client, now);
      if |bucket| >= limit {
        if limit >= 1 {
          RefusalNamesWait(client);
        }
        return Limited(RetryAfter(bucket, now));
      }
      Append(client, bucket, now);
      assert hits == old(hits)[client := bucket + [now]];
      MaybeSweep(now);
      return Admitted;
    }

    /** Pop what has aged from the client's queue. */
    method Age(client: Id, now: real) returns (bucket: Times)
      requires Valid() && clock <= now
      modifies `hits, `clock
      ensures Valid() && clock == now && Bucket(client) == bucket && |bucket| == Recent(History(client), now)
      ensures bucket == [] || now - bucket[0] <= WINDOW
      ensures bucket == Popped(old(Bucket(client)), now) && hits == old(hits)[client := bucket]
    {
      hide Tracks, Recent, Popped, Spaced;
      forall c: Id ensures Tracks(Bucket(c), History(c), now, limit) {
        TracksLater(Bucket(c), History(c), clock, now, limit);
      }
      PoppedTracks(Bucket(client), History(client), now, limit);
      bucket := PopAged(Bucket(client), now);
      hits := hits[client := bucket];
      clock := now;
      forall c: Id ensures Tracks(Bucket(c), History(c), now, limit) {
        assert c != client ==> Bucket(c) == old(Bucket(c));
      }
    }

    lemma RefusalNamesWait(client: Id)
      requires Valid() && |Bucket(client)| >= limit >= 1 && clock - Bucket(client)[0] <= WINDOW
      ensures IsWait(History(client), clock, limit, RetryAfter(Bucket(client), clock))
    {
    }

    static method PopAged(times: Times, now: real) returns (bucket: Times)
      ensures bucket == Popped(times, now)
    {
      bucket := times;
      while bucket != [] && now - bucket[0] > WINDOW
        invariant Popped(bucket, now) == Popped(times, now)
        decreases |bucket|
      {
        bucket := bucket[1..];
      }
    }

    method Append(client: Id, bucket: Times, now: real)
      requires Valid() && clock == now && Bucket(client) == bucket && Recent(History(client), now) == |bucket| < limit
      modifies `hits, `history
      ensures Valid() && history == old(history)[client := old(History(client)) + [now]]
      ensures hits == old(hits)[client := bucket + [now]]
    {
      hide Tracks, Spaced;
      AdmissionTracked(bucket, History(client), now, limit);
      AdmissionSpaced(bucket, History(client), now, limit);
      hits := hits[client := bucket + [now]];
      history := history[client := History(client) + [now]];
      forall c: Id ensures Tracks(Bucket(c), History(c), now, limit) {
        assert c != client ==> Bucket(c) == old(Bucket(c)) && History(c) == old(History(c));
      }
      forall c: Id ensures Spaced(History(c), limit) {
        assert c != client ==> History(c) == old(History(c));
      }
    }

    method MaybeSweep(now: real)
      requires Valid() && clock == now
      modifies this`hits, this`lastSweep
      ensures Valid() && (hits, lastSweep) == Swept(old(hits), old(lastSweep), now)
    {
      hide Tracks;
      if now - lastSweep < WINDOW {
        return;
      }
      lastSweep := now;
      ghost var before := hits;
      var stale := set c | c in hits && Stale(hits[c], now);
      while stale != {}
        invariant Valid() && lastSweep == now
        invariant forall c | c in stale :: c in hits && Stale(hits[c], now)
        invariant forall c | c in hits :: c in before && hits[c] == before[c]
        invariant forall c | c in before :: c in hits <==> !Stale(before[c], now) || c in stale
      {
        var c :| c in stale;
        StaleForgotten(Bucket(c), History(c), now, limit);
        stale := stale - {c};
        label removing:
        hits := hits - {c};
        forall d: Id ensures Tracks(Bucket(d), History(d), now, limit) {
          assert d != c ==> Bucket(d) == old@removing(Bucket(d));
        }
      }
      assert hits == Swept(before, old(lastSweep), now).0;
    }
  }

  // -- what the decisions amount to over time -----------------------------

  function Decide(history: Times, now: real, limit: int): Times {
    if Recent(history, now) < limit then history + [now] else history
  }

  lemma {:induction false} RecentSuffix(times: Times, now: real, k: nat)
    requires Ordered(times) && k < |times|
    ensures now - times[k] <= WINDOW ==> Recent(times, now) >= |times| - k
    ensures now - times[k] > WINDOW ==> Recent(times, now) < |times| - k
    decreases |times|
  {
    if k > 0 {
      RecentSuffix(times[1..], now, k - 1);
    } else if now - times[0] <= WINDOW {
      var young := times[1..];
      if young != [] {
        RecentSuffix(young, now, 0);
      }
    } else {
      RecentAtMost(times[1..], now);
    }
  }

  lemma {:induction false} RecentAtMost(times: Times, now: real)
    ensures Recent(times, now) <= |times|
    decreases |times|
  {
    if times != [] {
      RecentAtMost(times[1..], now);
    }
  }

  /** A client with at least `limit` admissions is let through exactly when the
      `limit`-th last one is more than a window old. */
  lemma DecidedByLimitthLast(history: Times, now: real, limit: int)
    requires Ordered(history) && 1 <= limit <= |history|
    ensures Recent(history, now) < limit <==> now - history[|history| - limit] > WINDOW
  {
    RecentSuffix(history, now, |history| - limit);
  }

  /** The admissions of a client whose requests arrive at these times. */
  function Admissions(history: Times, arrivals: Times, limit: int): Times
    decreases |arrivals|
  {
    if arrivals == [] then history
    else Admissions(Decide(history, arrivals[0], limit), arrivals[1..], limit)
  }

  predicate UpTo(history: Times, now: real) {
    Ordered(history) && (history != [] ==> history[|history| - 1] <= now)
  }

  lemma AdmissionSpaced(bucket: Times, history: Times, now: real, limit: int)
    requires Tracks(bucket, history, now, limit) && Spaced(history, limit) && Recent(history, now) < limit
    ensures Spaced(history + [now], limit)
  {
    if limit >= 1 {
      DecisionSpaced(history, now, limit);
    }
  }

  lemma DecisionSpaced(history: Times, now: real, limit: nat)
    requires limit >= 1 && UpTo(history, now) && Spaced(history, limit)
    ensures UpTo(Decide(history, now, limit), now) && Spaced(Decide(history, now, limit), limit)
  {
    if |history| >= limit {
      DecidedByLimitthLast(history, now, limit);
    }
    var next := Decide(history, now, limit);
    hide Recent;
    forall i: nat | i + limit < |next| ensures next[i + limit] - next[i] > WINDOW {
      if i + limit < |history| {
        assert history[i + limit] - history[i] > WINDOW;
      }
    }
  }

  /** Admission i + limit comes strictly more than a window after admission i. */
  lemma {:induction false} AdmissionsSpaced(history: Times, arrivals: Times, limit: nat)
    requires limit >= 1 && Ordered(history) && Spaced(history, limit)
    requires Ordered(arrivals) && (arrivals != [] ==> UpTo(history, arrivals[0]))
    ensures Ordered(Admissions(history, arrivals, limit)) && Spaced(Admissions(history, arrivals, limit), limit)
    decreases |arrivals|
  {
    if arrivals != [] {
      DecisionSpaced(history, arrivals[0], limit);
      AdmissionsSpaced(Decide(history, arrivals[0], limit), arrivals[1..], limit);
    }
  }

  /** A refused client that keeps quiet is admitted one second after Retry-After, and
      never by waiting Retry-After alone. */
  lemma RetryAfterPlusOneSuffices(history: Times, now: real, wait: int, later: real, limit: int)
    requires Ordered(history) && IsWait(history, now, limit, wait)
    ensures later >= now + wait as real + 1.0 ==> Recent(history, later) < limit
    ensures later <= now + wait as real ==> Recent(history, later) >= limit
  {
    DecidedByLimitthLast(history, later, limit);
  }
}
