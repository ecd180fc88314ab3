/** Time-based one-time codes, each accepted at most once per enrolment. */
module Totp {
  import opened Models
  import Text

  const INTERVAL := 30

  /** The code an authenticator shows for a secret at a time step. */
  type CodeBook = (Id, int) -> string

  /** Step `k` is within the drift window at `now` and shows this code. */
  predicate Matches(book: CodeBook, window: nat, secret: Id, code: string, now: int, k: int) {
    now / INTERVAL - window <= k <= now / INTERVAL + window && book(secret, k) == code
  }

  /** The largest matching step, if the code is all digits and any step matches. */
  ghost predicate IsLatestMatch(book: CodeBook, window: nat, secret: Id, raw: string, now: int, matched: Option<int>) {
    var code := Text.Strip(raw);
    match matched
    case None => Text.IsDigits(code) ==> forall k :: !Matches(book, window, secret, code, now, k)
    case Some(m) =>
      && Text.IsDigits(code) && Matches(book, window, secret, code, now, m)
      && forall k | Matches(book, window, secret, code, now, k) :: k <= m
  }

  class TotpService {
    const book: CodeBook
    const validWindow: nat

    constructor (book: CodeBook, validWindow: nat)
      ensures this.book == book && this.validWindow == validWindow
    {
      this.book := book;
      this.validWindow := validWindow;
    }

    method VerifyCounter(secret: Id, raw: string, now: int) returns (matched: Option<int>)
      ensures IsLatestMatch(book, validWindow, secret, raw, now, matched)
      ensures matched == Verified(book, validWindow, secret, raw, now)
    {
      var code := Text.Strip(raw);
      matched := None;
      var window: int := validWindow;
      if Text.IsDigits(code) {
        for offset := -window to window + 1
          invariant matched.Some? ==> Matches(book, validWindow, secret, code, now, matched.value)
          invariant forall k | Matches(book, validWindow, secret, code, now, k) && k < now / INTERVAL + offset ::
            matched.Some? && k <= matched.value
          invariant matched.Some? ==> matched.value < now / INTERVAL + offset
        {
          var at := now + offset * INTERVAL;
          assert at / INTERVAL == now / INTERVAL + offset;
          if book(secret, at / INTERVAL) == code {
            matched := Some(at / INTERVAL);
          }
        }
      }
      LatestMatchUnique(book, validWindow, secret, raw, now, matched);
    }
  }

  /** The step a code verifies as, searched from the end of the window down. */
  function Search(book: CodeBook, secret: Id, code: string, low: int, high: int): Option<int>
    decreases high - low
  {
    if high < low then None
    else if book(secret, high) == code then Some(high)
    else Search(book, secret, code, low, high - 1)
  }

  function Verified(book: CodeBook, window: nat, secret: Id, raw: string, now: int): Option<int> {
    var code := Text.Strip(raw);
    if Text.IsDigits(code) then
      Search(book, secret, code, now / INTERVAL - window, now / INTERVAL + window)
    else None
  }

  lemma {:induction false} SearchFindsLatest(book: CodeBook, secret: Id, code: string, low: int, high: int)
    ensures match Search(book, secret, code, low, high)
            case None => forall k | low <= k <= high :: book(secret, k) != code
            case Some(m) => low <= m <= high && book(secret, m) == code
                            && forall k | m < k <= high :: book(secret, k) != code
    decreases high - low
  {
    if low <= high && book(secret, high) != code {
      SearchFindsLatest(book, secret, code, low, high - 1);
    }
  }

  lemma LatestMatchUnique(book: CodeBook, window: nat, secret: Id, raw: string, now: int, matched: Option<int>)
    ensures IsLatestMatch(book, window, secret, raw, now, matched) <==> matched == Verified(book, window, secret, raw, now)
  {
    var (code, now') := (Text.Strip(raw), now / INTERVAL);
    SearchFindsLatest(book, secret, code, now' - window, now' + window);
    if IsLatestMatch(book, window, secret, raw, now, matched) && Text.IsDigits(code) {
      var found := Search(book, secret, code, now' - window, now' + window);
      assert found.Some? ==> Matches(book, window, secret, code, now, found.value);
    }
  }

  // -- enrolment ---------------------------------------------------------

  /** The second-factor fields of a user. */
  datatype Factor = Factor(enabled: bool, secret: Option<Id>, last: Option<int>)

  const OFF := Factor(false, None, None)

  datatype Event =
    | Begin(newSecret: Id)
    | Confirm(code: string)
    | Authenticate(code: string)
    | Disable(code: string)

  datatype Policy = Policy(book: CodeBook, window: nat)

  /** The step a code burns: verified, and later than every step already burned. */
  function Burnt(f: Factor, p: Policy, code: string, now: int): Option<int> {
    if f.secret.None? then None
    else
      var step := Verified(p.book, p.window, f.secret.value, code, now);
      if step.Some? && f.last.Some? && step.value <= f.last.value then None else step
  }

  /** The step an event accepts, if it gets as far as checking a code and the code is good. */
  function AcceptedStep(f: Factor, p: Policy, now: int, e: Event): Option<int> {
    match e
    case Begin(_) => None
    case Confirm(code) => Burnt(f, p, code, now)
    case Authenticate(code) => if f.enabled && code != "" then Burnt(f, p, code, now) else None
    case Disable(code) => if f.enabled then Burnt(f, p, code, now) else None
  }

  function Next(f: Factor, p: Policy, now: int, e: Event): Factor {
    match e
    case Begin(secret) => if f.enabled then f else f.(secret := Some(secret))
    case _ =>
      var step := AcceptedStep(f, p, now, e);
      if step.None? then f
      else if e.Disable? then OFF
      else f.(enabled := f.enabled || e.Confirm?, last := step)
  }

  /** A code is accepted exactly as its latest match, later than the last step; to confirm, by
      anyone with a secret, and to log in or to switch the factor off, only while it is on. */
  lemma AcceptedExactly(f: Factor, p: Policy, now: int, e: Event, k: int)
    ensures AcceptedStep(f, p, now, e) == Some(k) <==>
            && !e.Begin? && (e.Authenticate? ==> f.enabled && e.code != "") && (e.Disable? ==> f.enabled)
            && f.secret.Some? && IsLatestMatch(p.book, p.window, f.secret.value, e.code, now, Some(k))
            && (f.last.Some? ==> k > f.last.value)
  {
    if !e.Begin? && f.secret.Some? {
      LatestMatchUnique(p.book, p.window, f.secret.value, e.code, now, Some(k));
    }
    hide Verified, IsLatestMatch;
  }

  /** Only an accepted code changes anything, except that an enrolment stores its secret while the
      factor is off. */
  lemma NextExactly(f: Factor, p: Policy, now: int, e: Event)
    ensures var (step, f') := (AcceptedStep(f, p, now, e), Next(f, p, now, e));
            && (e.Begin? ==> f' == if f.enabled then f else Factor(false, Some(e.newSecret), f.last))
            && (!e.Begin? && step.None? ==> f' == f)
            && (e.Confirm? && step.Some? ==> f' == Factor(true, f.secret, step))
            && (e.Authenticate? && step.Some? ==> f' == Factor(f.enabled, f.secret, step))
            && (e.Disable? && step.Some? ==> f' == Factor(false, None, None))
  {
    hide AcceptedStep;
  }

  class User {
    var enabled: bool
    var secret: Option<Id>
    var last: Option<int>

    ghost function Value(): Factor
      reads this
    {
      Factor(enabled, secret, last)
    }
  }

  class AuthService {
    const totp: TotpService

    constructor (totp: TotpService)
      ensures this.totp == totp
    {
      this.totp := totp;
    }

    ghost function Rules(): Policy {
      Policy(totp.book, totp.validWindow)
    }

    method BeginEnrollment(user: User, newSecret: Id) returns (r: Result<Id>)
      modifies user
      ensures user.Value() == Next(old(user.Value()), Rules(), 0, Begin(newSecret))
      ensures r == if old(user.enabled) then Err(Conflict) else Ok(newSecret)
    {
      if user.enabled {
        return Err(Conflict);
      }
      user.secret := Some(newSecret);
      return Ok(newSecret);
    }

    method Consume(user: User, code: string, now: int) returns (r: Result<()>)
      modifies user
      ensures var step := Burnt(old(user.Value()), Rules(), code, now);
              && r == (if step.Some? then Ok(()) else Err(Authentication))
              && user.Value() == if step.Some? then old(user.Value()).(last := step) else old(user.Value())
    {
      if user.secret.None? {
        return Err(Authentication);
      }
      var counter := totp.VerifyCounter(user.secret.value, code, now);
      if counter.None? {
        return Err(Authentication);
      }
      if user.last.Some? && counter.value <= user.last.value {
        return Err(Authentication);
      }
      user.last := counter;
      return Ok(());
    }

    method ConfirmTotp(user: User, code: string, now: int) returns (r: Result<()>)
      modifies user
      ensures user.Value() == Next(old(user.Value()), Rules(), now, Confirm(code))
      ensures r.Ok? <==> AcceptedStep(old(user.Value()), Rules(), now, Confirm(code)).Some?
    {
      if user.secret.None? {
        return Err(NotFound);
      }
      r := Consume(user, code, now);
      if r.Ok? {
        user.enabled := true;
      }
    }

    /** The second-factor part of a login. */
    method CheckSecondFactor(user: User, code: string, now: int) returns (r: Result<()>)
      modifies user
      ensures user.Value() == Next(old(user.Value()), Rules(), now, Authenticate(code))
      ensures r.Ok? <==> !old(user.enabled) || AcceptedStep(old(user.Value()), Rules(), now, Authenticate(code)).Some?
    {
      if !user.enabled {
        return Ok(());
      }
      if code == "" {
        return Err(TwoFactorRequired);
      }
      r := Consume(user, code, now);
    }

    method DisableTotp(user: User, code: string, now: int) returns (r: Result<()>)
      modifies user
      ensures user.Value() == Next(old(user.Value()), Rules(), now, Disable(code))
      ensures r.Ok? <==> AcceptedStep(old(user.Value()), Rules(), now, Disable(code)).Some?
    {
      if !user.enabled || user.secret.None? {
        return Err(Conflict);
      }
      r := Consume(user, code, now);
      if r.Ok? {
        user.enabled := false;
        user.secret := None;
        user.last := None;
      }
    }
  }

  // -- runs --------------------------------------------------------------

  type Trace = seq<(int, Event)>

  function Run(f: Factor, p: Policy, trace: Trace): Factor
    decreases |trace|
  {
    if trace == [] then f else Run(Next(f, p, trace[0].0, trace[0].1), p, trace[1..])
  }

  /** The steps accepted, in order. */
  function Accepted(f: Factor, p: Policy, trace: Trace): seq<int>
    decreases |trace|
  {
    if trace == [] then []
    else
      var step := AcceptedStep(f, p, trace[0].0, trace[0].1);
      (if step.Some? then [step.value] else []) + Accepted(Next(f, p, trace[0].0, trace[0].1), p, trace[1..])
  }

  /** A step is on record, and a secret is, whenever the second factor is on. */
  predicate Sound(f: Factor) {
    (f.enabled <==> f.last.Some?) && (f.enabled ==> f.secret.Some?)
  }

  lemma {:induction false} LastRecordedExactlyWhenEnabled(f: Factor, p: Policy, trace: Trace)
    requires Sound(f)
    ensures Sound(Run(f, p, trace))
    decreases |trace|
  {
    if trace != [] {
      LastRecordedExactlyWhenEnabled(Next(f, p, trace[0].0, trace[0].1), p, trace[1..]);
    }
  }

  /** The second factor is on after every event but possibly the last: one enrolment. */
  predicate OneEnrolment(f: Factor, p: Policy, trace: Trace)
    decreases |trace|
  {
    |trace| > 1 ==>
      var next := Next(f, p, trace[0].0, trace[0].1);
      next.enabled && OneEnrolment(next, p, trace[1..])
  }

  /** While the second factor is on its secret never changes. */
  lemma {:induction false} SecretFixedWhileEnabled(f: Factor, p: Policy, trace: Trace)
    requires f.enabled && OneEnrolment(f, p, trace) && Run(f, p, trace).enabled
    ensures Run(f, p, trace).secret == f.secret
    decreases |trace|
  {
    if |trace| > 1 {
      SecretFixedWhileEnabled(Next(f, p, trace[0].0, trace[0].1), p, trace[1..]);
    } else if |trace| == 1 {
      assert Run(f, p, trace) == Next(f, p, trace[0].0, trace[0].1);
    }
  }

  predicate Increasing(s: seq<int>) {
    forall i, j | 0 <= i < j < |s| :: s[i] < s[j]
  }

  /** Within one enrolment the accepted steps strictly increase, so none is accepted twice. */
  lemma {:induction false} AcceptedStepsIncrease(f: Factor, p: Policy, trace: Trace)
    requires Sound(f) && OneEnrolment(f, p, trace)
    ensures Increasing(Accepted(f, p, trace))
    ensures f.last.Some? ==> forall k | k in Accepted(f, p, trace) :: k > f.last.value
    decreases |trace|
  {
    if trace != [] {
      var next := Next(f, p, trace[0].0, trace[0].1);
      var step := AcceptedStep(f, p, trace[0].0, trace[0].1);
      var rest := Accepted(next, p, trace[1..]);
      if |trace| > 1 {
        AcceptedStepsIncrease(next, p, trace[1..]);
        assert step.Some? ==> next.last == step;
      } else {
        assert rest == [];
      }
      hide AcceptedStep, Next;
      assert Accepted(f, p, trace) == if step.Some? then [step.value] + rest else rest;
      if step.Some? {
        forall i | 0 <= i < |rest| ensures step.value < rest[i] {
          assert rest[i] in rest;
        }
      }
    }
  }

  predicate Within(trace: Trace, t0: int, t1: int) {
    forall e | e in trace :: t0 <= e.0 <= t1
  }

  lemma {:induction false} AcceptedInWindow(f: Factor, p: Policy, trace: Trace, t0: int, t1: int)
    requires Within(trace, t0, t1)
    ensures forall k | k in Accepted(f, p, trace) :: t0 / INTERVAL - p.window <= k <= t1 / INTERVAL + p.window
    decreases |trace|
  {
    if trace != [] {
      assert trace[0] in trace;
      var (now, e) := trace[0];
      var step := AcceptedStep(f, p, now, e);
      if step.Some? {
        var code := Text.Strip(e.code);
        SearchFindsLatest(p.book, f.secret.value, code, now / INTERVAL - p.window, now / INTERVAL + p.window);
      }
      AcceptedInWindow(Next(f, p, now, e), p, trace[1..], t0, t1);
    }
  }

  lemma {:induction false} IncreasingFits(s: seq<int>, low: int, high: int)
    requires Increasing(s) && forall k | k in s :: low <= k <= high
    requires low <= high + 1
    ensures |s| <= high - low + 1
    decreases |s|
  {
    if s != [] {
      var (last, init) := (s[|s| - 1], s[..|s| - 1]);
      forall k | k in init ensures low <= k <= last - 1 {
        var i :| 0 <= i < |init| && init[i] == k;
        assert s[i] < s[|s| - 1] && s[i] in s;
      }
      assert last in s;
      IncreasingFits(init, low, last - 1);
    }
  }

  /** During [t0, t1] one enrolment accepts at most one code per step in reach: with the
      default window of one step, t1/30 - t0/30 + 3. */
  lemma AcceptedCount(f: Factor, p: Policy, trace: Trace, t0: int, t1: int)
    requires Sound(f) && OneEnrolment(f, p, trace) && Within(trace, t0, t1) && t0 <= t1
    ensures |Accepted(f, p, trace)| <= t1 / 30 - t0 / 30 + 2 * p.window + 1
  {
    AcceptedStepsIncrease(f, p, trace);
    AcceptedInWindow(f, p, trace, t0, t1);
    IncreasingFits(Accepted(f, p, trace), t0 / INTERVAL - p.window, t1 / INTERVAL + p.window);
  }
}
