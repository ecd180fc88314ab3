/** The circuit breaker, and the protocol its concurrent callers follow: the guarded
    call runs outside the lock, so calls admitted in one state complete in another. */
module CircuitBreakers {
  import opened Models

  datatype CircuitState = Closed | Opened | HalfOpen

  /** The breaker's fields. */
  datatype Breaker = Breaker(state: CircuitState, failures: nat, openedAt: real, probeInFlight: bool)

  const NEW := Breaker(Closed, 0, 0.0, false)

  datatype Settings = Settings(failureThreshold: int, recoveryTimeout: real)

  /** One admission decision at time `now`. */
  function Attempt(b: Breaker, s: Settings, now: real): (Breaker, bool) {
    match b.state
    case Closed => (b, true)
    case Opened =>
      if now - b.openedAt >= s.recoveryTimeout then (b.(state := HalfOpen, probeInFlight := true), true)
      else (b, false)
    case HalfOpen =>
      if b.probeInFlight then (b, false) else (b.(probeInFlight := true), true)
  }

  function Succeed(b: Breaker): Breaker {
    b.(failures := 0, state := Closed, probeInFlight := false)
  }

  function Fail(b: Breaker, s: Settings, now: real): Breaker {
    var b' := b.(failures := b.failures + 1, probeInFlight := false);
    if b.state.HalfOpen? || b'.failures >= s.failureThreshold then b'.(state := Opened, openedAt := now) else b'
  }

  class CircuitBreaker {
    const settings: Settings
    var state: CircuitState
    var failures: nat
    var openedAt: real
    var probeInFlight: bool

    ghost function Value(): Breaker
      reads this
    {
      Breaker(state, failures, openedAt, probeInFlight)
    }

    constructor (settings: Settings)
      ensures this.settings == settings && Value() == NEW
    {
      this.settings := settings;
      state, failures, openedAt, probeInFlight := Closed, 0, 0.0, false;
    }

    method CanAttempt(now: real) returns (admitted: bool)
      modifies this
      ensures (Value(), admitted) == Attempt(old(Value()), settings, now)
    {
      if state.Closed? {
        return true;
      }
      if state.Opened? {
        if now - openedAt >= settings.recoveryTimeout {
          state := HalfOpen;
          probeInFlight := true;
          return true;
        }
        return false;
      }
      if probeInFlight {
        return false;
      }
      probeInFlight := true;
      return true;
    }

    method RecordSuccess()
      modifies this
      ensures Value() == Succeed(old(Value()))
    {
      failures := 0;
      state := Closed;
      probeInFlight := false;
    }

    method RecordFailure(now: real)
      modifies this
      ensures Value() == Fail(old(Value()), settings, now)
    {
      failures := failures + 1;
      probeInFlight := false;
      if state.HalfOpen? || failures >= settings.failureThreshold {
        state := Opened;
        openedAt := now;
      }
    }
  }

  // -- the protocol ------------------------------------------------------

  datatype Event =
    | Ask(call: nat)         // a caller asks to be let through
    | Finish(call: nat, ok: bool)

  /** A call under way: when it was let through, and whether as the half-open probe. */
  datatype Flight = Flight(since: real, probe: bool)

  datatype System = System(breaker: Breaker, now: real, flights: map<nat, Flight>)

  const IDLE := System(NEW, 0.0, map[])

  /** The clock never goes back; only an admitted call that has not finished can finish. */
  predicate Enabled(sys: System, at: real, e: Event) {
    at >= sys.now && match e
      case Ask(c) => c !in sys.flights
      case Finish(c, _) => c in sys.flights
  }

  predicate Admits(sys: System, s: Settings, at: real, e: Event) {
    e.Ask? && Attempt(sys.breaker, s, at).1
  }

  function Next(sys: System, s: Settings, at: real, e: Event): System {
    match e
    case Ask(c) =>
      var (b, admitted) := Attempt(sys.breaker, s, at);
      System(b, at, if admitted then sys.flights[c := Flight(at, !sys.breaker.state.Closed?)] else sys.flights)
    case Finish(c, ok) =>
      System(if ok then Succeed(sys.breaker) else Fail(sys.breaker, s, at), at, sys.flights - {c})
  }

  type Trace = seq<(real, Event)>

  predicate Valid(sys: System, s: Settings, trace: Trace)
    decreases |trace|
  {
    trace != [] ==> Enabled(sys, trace[0].0, trace[0].1) && Valid(Next(sys, s, trace[0].0, trace[0].1), s, trace[1..])
  }

  function Run(sys: System, s: Settings, trace: Trace): System
    decreases |trace|
  {
    if trace == [] then sys else Run(Next(sys, s, trace[0].0, trace[0].1), s, trace[1..])
  }

  // -- what the state says about the history -----------------------------

  /** How many of the last completions failed in a row, `before` having failed before the trace. */
  function TrailingFailures(before: nat, trace: Trace): nat
    decreases |trace|
  {
    if trace == [] then before
    else match trace[0].1
      case Ask(_) => TrailingFailures(before, trace[1..])
      case Finish(_, ok) => TrailingFailures(if ok then 0 else before + 1, trace[1..])
  }

  /** The failure counter decides between closed and not; a probe runs exactly in half-open. */
  predicate Coherent(b: Breaker, s: Settings) {
    && (b.state.Closed? <==> b.failures < s.failureThreshold)
    && (b.probeInFlight <==> b.state.HalfOpen?)
  }

  lemma {:induction false} StateTellsHistory(sys: System, s: Settings, trace: Trace)
    requires s.failureThreshold >= 1 && Coherent(sys.breaker, s)
    ensures var b := Run(sys, s, trace).breaker;
            && Coherent(b, s)
            && b.failures == TrailingFailures(sys.breaker.failures, trace)
    decreases |trace|
  {
    if trace != [] {
      StateTellsHistory(Next(sys, s, trace[0].0, trace[0].1), s, trace[1..]);
    }
  }

  /** Under every interleaving the circuit is closed exactly when fewer than the threshold
      of the latest completions failed in a row. */
  lemma ClosedExactlyBelowThreshold(s: Settings, trace: Trace)
    requires s.failureThreshold >= 1
    ensures var b := Run(IDLE, s, trace).breaker;
            && (b.state.Closed? <==> TrailingFailures(0, trace) < s.failureThreshold)
            && (b.probeInFlight <==> b.state.HalfOpen?)
  {
    StateTellsHistory(IDLE, s, trace);
  }

  // -- exactly which calls are let through ---------------------------------

  /** When the latest failure was recorded. */
  function LatestFailure(trace: Trace): Option<real> {
    if trace == [] then None
    else
      var (at, e) := trace[|trace| - 1];
      if e.Finish? && !e.ok then Some(at) else LatestFailure(trace[..|trace| - 1])
  }

  /** Since the latest completion a call has been asked for after the recovery timeout. */
  predicate ProbeAsked(s: Settings, trace: Trace) {
    trace != [] &&
    var (init, (at, e)) := (trace[..|trace| - 1], trace[|trace| - 1]);
    e.Ask? && (ProbeAsked(s, init) || (LatestFailure(init).Some? && at - LatestFailure(init).value >= s.recoveryTimeout))
  }

  lemma {:induction false} RunOneMore(sys: System, s: Settings, trace: Trace, e: (real, Event))
    ensures Run(sys, s, trace + [e]) == Next(Run(sys, s, trace), s, e.0, e.1)
    decreases |trace|
  {
    hide Next;
    if trace == [] {
      assert (trace + [e])[1..] == [];
    } else {
      assert (trace + [e])[1..] == trace[1..] + [e];
      RunOneMore(Next(sys, s, trace[0].0, trace[0].1), s, trace[1..], e);
    }
  }

  lemma {:induction false} TrailingOneMore(before: nat, trace: Trace, e: (real, Event))
    ensures var n := TrailingFailures(before, trace);
            TrailingFailures(before, trace + [e]) == if e.1.Ask? then n else if e.1.ok then 0 else n + 1
    decreases |trace|
  {
    if trace == [] {
      assert (trace + [e])[1..] == [];
    } else {
      assert (trace + [e])[1..] == trace[1..] + [e];
      var before' := match trace[0].1 case Ask(_) => before case Finish(_, ok) => if ok then 0 else before + 1;
      TrailingOneMore(before', trace[1..], e);
    }
  }

  /** The breaker, read off the trace. */
  predicate StandsAt(b: Breaker, s: Settings, trace: Trace) {
    && b.failures == TrailingFailures(0, trace)
    && (b.state.Closed? <==> b.failures < s.failureThreshold)
    && (!b.state.Closed? ==> LatestFailure(trace) == Some(b.openedAt))
    && (b.state.HalfOpen? <==> !b.state.Closed? && ProbeAsked(s, trace))
    && (b.probeInFlight <==> b.state.HalfOpen?)
  }

  lemma {:induction false} StateOfTrace(s: Settings, trace: Trace)
    requires s.failureThreshold >= 1
    ensures StandsAt(Run(IDLE, s, trace).breaker, s, trace)
    decreases |trace|
  {
    if trace != [] {
      var (init, e) := (trace[..|trace| - 1], trace[|trace| - 1]);
      assert trace == init + [e];
      StateOfTrace(s, init);
      RunOneMore(IDLE, s, init, e);
      TrailingOneMore(0, init, e);
      hide Run, TrailingFailures;
    }
  }

  /** Under every interleaving a call asked for at `at` is let through exactly when fewer than the
      threshold of the latest completions failed in a row, or the latest failure lies at least the
      recovery timeout back and no call was let through since. */
  lemma AdmittedExactly(s: Settings, trace: Trace, at: real, c: nat)
    requires s.failureThreshold >= 1
    ensures Admits(Run(IDLE, s, trace), s, at, Ask(c)) <==>
            || TrailingFailures(0, trace) < s.failureThreshold
            || (!ProbeAsked(s, trace) && LatestFailure(trace).Some?
                && at - LatestFailure(trace).value >= s.recoveryTimeout)
    ensures c in Next(Run(IDLE, s, trace), s, at, Ask(c)).flights <==>
            Admits(Run(IDLE, s, trace), s, at, Ask(c)) || c in Run(IDLE, s, trace).flights
  {
    StateOfTrace(s, trace);
    hide Run, TrailingFailures, LatestFailure, ProbeAsked;
  }

  // -- one call per half-open episode ------------------------------------

  function Admitted(sys: System, s: Settings, trace: Trace): nat
    decreases |trace|
  {
    if trace == [] then 0
    else (if Admits(sys, s, trace[0].0, trace[0].1) then 1 else 0)
         + Admitted(Next(sys, s, trace[0].0, trace[0].1), s, trace[1..])
  }

  /** The circuit is half-open after every event of the trace. */
  predicate StaysHalfOpen(sys: System, s: Settings, trace: Trace)
    decreases |trace|
  {
    trace != [] ==>
      var next := Next(sys, s, trace[0].0, trace[0].1);
      next.breaker.state.HalfOpen? && StaysHalfOpen(next, s, trace[1..])
  }

  lemma {:induction false} HalfOpenAdmitsNoMore(sys: System, s: Settings, trace: Trace)
    requires sys.breaker.state.HalfOpen? && sys.breaker.probeInFlight && StaysHalfOpen(sys, s, trace)
    ensures Admitted(sys, s, trace) == 0
    decreases |trace|
  {
    if trace != [] {
      HalfOpenAdmitsNoMore(Next(sys, s, trace[0].0, trace[0].1), s, trace[1..]);
    }
  }

  /** A half-open episode, from the event that begins it on, admits exactly one call. */
  lemma EpisodeAdmitsExactlyOne(sys: System, s: Settings, trace: Trace)
    requires s.failureThreshold >= 1 && Coherent(sys.breaker, s) && !sys.breaker.state.HalfOpen?
    requires trace != [] && StaysHalfOpen(sys, s, trace)
    ensures Admitted(sys, s, trace) == 1
  {
    HalfOpenAdmitsNoMore(Next(sys, s, trace[0].0, trace[0].1), s, trace[1..]);
  }

  // -- how often an open circuit lets a call through ----------------------

  predicate NoSuccess(trace: Trace) {
    forall e | e in trace :: e.1.Finish? ==> !e.1.ok
  }

  /** `n` admissions since the circuit opened at `t0` took at least `n` recovery timeouts. */
  predicate Spaced(sys: System, s: Settings, t0: real, n: nat) {
    match sys.breaker.state
    case Closed => false
    case Opened => n as real * s.recoveryTimeout <= sys.breaker.openedAt - t0 && sys.breaker.openedAt <= sys.now
    case HalfOpen => sys.breaker.probeInFlight && n as real * s.recoveryTimeout <= sys.now - t0
  }

  lemma OneMore(n: nat, r: real)
    ensures (n + 1) as real * r == n as real * r + r
  {
  }

  lemma {:induction false} AdmissionsStaySpaced(sys: System, s: Settings, t0: real, n: nat, trace: Trace)
    requires s.failureThreshold >= 1 && Coherent(sys.breaker, s) && Spaced(sys, s, t0, n)
    requires Valid(sys, s, trace) && NoSuccess(trace)
    ensures Spaced(Run(sys, s, trace), s, t0, n + Admitted(sys, s, trace))
    decreases |trace|
  {
    if trace != [] {
      assert trace[0] in trace;
      OneMore(n, s.recoveryTimeout);
      var n' := if Admits(sys, s, trace[0].0, trace[0].1) then n + 1 else n;
      AdmissionsStaySpaced(Next(sys, s, trace[0].0, trace[0].1), s, t0, n', trace[1..]);
    }
  }

  lemma SpacedTakesTime(sys: System, s: Settings, t0: real, n: nat)
    requires Spaced(sys, s, t0, n)
    ensures n as real * s.recoveryTimeout <= sys.now - t0
  {
  }

  /** While no call succeeds, a circuit that opened at t0 has admitted at most
      (now - t0) / recoveryTimeout calls. */
  lemma OpenCircuitAdmitsRarely(sys: System, s: Settings, trace: Trace)
    requires s.failureThreshold >= 1 && Coherent(sys.breaker, s)
    requires sys.breaker.state.Opened? && sys.breaker.openedAt <= sys.now
    requires Valid(sys, s, trace) && NoSuccess(trace)
    ensures Admitted(sys, s, trace) as real * s.recoveryTimeout <= Run(sys, s, trace).now - sys.breaker.openedAt
  {
    AdmissionsStaySpaced(sys, s, sys.breaker.openedAt, 0, trace);
    SpacedTakesTime(Run(sys, s, trace), s, sys.breaker.openedAt, Admitted(sys, s, trace));
    hide Spaced, Run, Admitted, Valid;
  }

  // -- one probe at a time -----------------------------------------------

  /** Every call under way was let through less than a recovery timeout ago. */
  predicate Brief(sys: System, s: Settings, at: real) {
    forall c | c in sys.flights :: at - sys.flights[c].since < s.recoveryTimeout
  }

  predicate AllBrief(sys: System, s: Settings, trace: Trace)
    decreases |trace|
  {
    trace != [] ==> Brief(sys, s, trace[0].0) && AllBrief(Next(sys, s, trace[0].0, trace[0].1), s, trace[1..])
  }

  predicate OneProbe(sys: System) {
    forall c, d | c in sys.flights && d in sys.flights && sys.flights[c].probe && sys.flights[d].probe :: c == d
  }

  /** Probes still under way were let through before the circuit last opened. */
  predicate ProbesPrecedeOpening(sys: System) {
    && (forall c | c in sys.flights :: sys.flights[c].since <= sys.now)
    && (sys.breaker.state.Opened? ==>
          forall c | c in sys.flights && sys.flights[c].probe :: sys.flights[c].since <= sys.breaker.openedAt)
    && (sys.breaker.state.Opened? ==> sys.breaker.openedAt <= sys.now)
  }

  lemma {:induction false} ProbesStaySingle(sys: System, s: Settings, trace: Trace)
    requires Coherent(sys.breaker, s) && OneProbe(sys) && ProbesPrecedeOpening(sys)
    requires s.failureThreshold >= 1 && Valid(sys, s, trace) && AllBrief(sys, s, trace)
    ensures OneProbe(Run(sys, s, trace))
    decreases |trace|
  {
    if trace != [] {
      ProbesStaySingle(Next(sys, s, trace[0].0, trace[0].1), s, trace[1..]);
    }
  }

  /** When every call finishes in less than the recovery timeout, two probes are never
      under way together. */
  lemma BriefCallsProbeAlone(s: Settings, trace: Trace)
    requires s.failureThreshold >= 1 && Valid(IDLE, s, trace) && AllBrief(IDLE, s, trace)
    ensures OneProbe(Run(IDLE, s, trace))
  {
    ProbesStaySingle(IDLE, s, trace);
  }

  /** No call is ever under way for longer than `limit`. */
  predicate AllWithin(sys: System, s: Settings, trace: Trace, limit: real)
    decreases |trace|
  {
    trace != [] ==>
      && (forall c | c in sys.flights :: trace[0].0 - sys.flights[c].since <= limit)
      && AllWithin(Next(sys, s, trace[0].0, trace[0].1), s, trace[1..], limit)
  }

  // -- when the promise of a single probe fails ----------------------------

  /** `n` calls in turn that are let through and fail at once. */
  function Failing(n: nat): (trace: Trace) {
    if n == 0 then [] else [(0.0, Ask(0)), (0.0, Finish(0, false))] + Failing(n - 1)
  }

  lemma {:induction false} FailingLeaves(s: Settings, limit: real, n: nat, before: nat, rest: Trace)
    requires before + n < s.failureThreshold && limit >= 0.0
    ensures var (from, to) := (System(NEW.(failures := before), 0.0, map[]), System(NEW.(failures := before + n), 0.0, map[]));
            && Run(from, s, Failing(n) + rest) == Run(to, s, rest)
            && (Valid(from, s, Failing(n) + rest) <==> Valid(to, s, rest))
            && (AllWithin(from, s, Failing(n) + rest, limit) <==> AllWithin(to, s, rest, limit))
    decreases n
  {
    var from := System(NEW.(failures := before), 0.0, map[]);
    if n == 0 {
      assert Failing(n) + rest == rest;
    } else {
      var trace := Failing(n) + rest;
      var asked := Next(from, s, 0.0, Ask(0));
      var failed := Next(asked, s, 0.0, Finish(0, false));
      assert failed == System(NEW.(failures := before + 1), 0.0, map[]);
      assert trace[1..][1..] == Failing(n - 1) + rest && trace[1..][0] == (0.0, Finish(0, false));
      FailingLeaves(s, limit, n - 1, before + 1, rest);
      assert Enabled(from, 0.0, Ask(0)) && Enabled(asked, 0.0, Finish(0, false));
      assert forall c | c in asked.flights :: 0.0 - asked.flights[c].since <= limit;
      hide Next, Enabled;
      assert Run(from, s, trace) == Run(asked, s, trace[1..]) == Run(failed, s, trace[1..][1..]);
    }
  }

  /** A stale failure opens the circuit while another call of the closed circuit still runs;
      that call's failure re-opens it under a probe, and a second probe joins the first. */
  function Overlapping(d: real): Trace {
    [(0.0, Ask(0)), (d, Ask(1)), (d, Finish(0, false)), (d + d, Ask(2)), (d + d, Finish(1, false)), (d + d + d, Ask(3))]
  }

  lemma OverlapFromBrink(s: Settings, d: real, limit: real)
    requires s.failureThreshold >= 1 && d >= 0.0 && d >= s.recoveryTimeout && limit >= d
    ensures var (sys, trace) := (System(NEW.(failures := s.failureThreshold - 1), 0.0, map[]), Overlapping(d));
            Valid(sys, s, trace) && AllWithin(sys, s, trace, limit) && !OneProbe(Run(sys, s, trace))
  {
    var (sys, trace) := (System(NEW.(failures := s.failureThreshold - 1), 0.0, map[]), Overlapping(d));
    var s1 := Next(sys, s, 0.0, Ask(0));
    var s2 := Next(s1, s, d, Ask(1));
    var s3 := Next(s2, s, d, Finish(0, false));
    var s4 := Next(s3, s, d + d, Ask(2));
    var s5 := Next(s4, s, d + d, Finish(1, false));
    var s6 := Next(s5, s, d + d + d, Ask(3));
    assert s6.flights[2].probe && s6.flights[3].probe;
    assert Enabled(s1, d, trace[1].1) && Enabled(s2, d, trace[2].1) && Enabled(s3, d + d, trace[3].1);
    assert Enabled(s4, d + d, trace[4].1) && Enabled(s5, d + d + d, trace[5].1);
    hide Next, Enabled, OneProbe;
    assert Run(s5, s, trace[5..]) == s6 && Valid(s5, s, trace[5..]) && AllWithin(s5, s, trace[5..], limit);
    assert Run(s4, s, trace[4..]) == s6 && Valid(s4, s, trace[4..]) && AllWithin(s4, s, trace[4..], limit);
    assert Run(s3, s, trace[3..]) == s6 && Valid(s3, s, trace[3..]) && AllWithin(s3, s, trace[3..], limit);
    assert Run(s2, s, trace[2..]) == s6 && Valid(s2, s, trace[2..]) && AllWithin(s2, s, trace[2..], limit);
    assert Run(s1, s, trace[1..]) == s6 && Valid(s1, s, trace[1..]) && AllWithin(s1, s, trace[1..], limit);
    assert Run(sys, s, trace) == s6;
  }

  /** With calls that may last the recovery timeout, two probes can meet at every threshold. */
  lemma StaleFailureAdmitsSecondProbe(s: Settings, limit: real) returns (trace: Trace)
    requires s.failureThreshold >= 1 && limit >= 0.0 && limit >= s.recoveryTimeout
    ensures Valid(IDLE, s, trace) && AllWithin(IDLE, s, trace, limit) && !OneProbe(Run(IDLE, s, trace))
  {
    trace := Failing(s.failureThreshold - 1) + Overlapping(limit);
    FailingLeaves(s, limit, s.failureThreshold - 1, 0, Overlapping(limit));
    OverlapFromBrink(s, limit, limit);
  }

  lemma {:induction false} WithinIsBrief(sys: System, s: Settings, trace: Trace, limit: real)
    requires AllWithin(sys, s, trace, limit) && limit < s.recoveryTimeout
    ensures AllBrief(sys, s, trace)
    decreases |trace|
  {
    if trace != [] {
      WithinIsBrief(Next(sys, s, trace[0].0, trace[0].1), s, trace[1..], limit);
    }
  }

  /** With no call allowed any time at all, a run ends at its first admission. */
  lemma {:induction false} NoTimeNoProbes(sys: System, s: Settings, trace: Trace, limit: real)
    requires limit < 0.0 && Valid(sys, s, trace) && AllWithin(sys, s, trace, limit)
    requires forall c | c in sys.flights :: sys.flights[c].since <= sys.now
    requires sys.flights != map[] ==> OneProbe(sys)
    ensures OneProbe(Run(sys, s, trace))
    decreases |trace|
  {
    if trace != [] {
      assert sys.flights == map[] by {
        if c :| c in sys.flights {
          assert trace[0].0 - sys.flights[c].since <= limit;
        }
      }
      NoTimeNoProbes(Next(sys, s, trace[0].0, trace[0].1), s, trace[1..], limit);
    }
  }

  /** A single probe is kept by every run whose calls last at most `limit` exactly when that
      is less than the recovery timeout (or no call may last at all). */
  lemma ProbesAloneIff(s: Settings, limit: real)
    requires s.failureThreshold >= 1
    ensures (forall trace :: Valid(IDLE, s, trace) && AllWithin(IDLE, s, trace, limit) ==> OneProbe(Run(IDLE, s, trace)))
            <==> limit < 0.0 || limit < s.recoveryTimeout
  {
    if limit < 0.0 || limit < s.recoveryTimeout {
      forall trace | Valid(IDLE, s, trace) && AllWithin(IDLE, s, trace, limit) ensures OneProbe(Run(IDLE, s, trace)) {
        if limit < s.recoveryTimeout {
          WithinIsBrief(IDLE, s, trace, limit);
          BriefCallsProbeAlone(s, trace);
        } else {
          NoTimeNoProbes(IDLE, s, trace, limit);
        }
      }
    } else {
      var trace := StaleFailureAdmitsSecondProbe(s, limit);
    }
  }
}
