/** Second-factor requests that overlap: each works on the copy of the user it has read, and
    writes back the fields it changed. */
module TotpOverlaps {
  import opened Models
  import opened Totp
  import Text

  datatype Step =
    | Read(request: Id)
    | Finish(request: Id, now: int, event: Event)

  /** The stored fields, the copies in flight, and the requests that have begun. */
  datatype System = System(stored: Factor, copies: map<Id, Factor>, begun: set<Id>)

  predicate Enabled(sys: System, step: Step) {
    match step
    case Read(r) => r !in sys.begun
    case Finish(r, _, _) => r in sys.copies
  }

  /** Only the fields that differ from the copy are written. */
  function Written(stored: Factor, copy: Factor, after: Factor): Factor {
    Factor(if after.enabled != copy.enabled then after.enabled else stored.enabled,
           if after.secret != copy.secret then after.secret else stored.secret,
           if after.last != copy.last then after.last else stored.last)
  }

  function Do(sys: System, p: Policy, step: Step): System {
    match step
    case Read(r) => System(sys.stored, sys.copies[r := sys.stored], sys.begun + {r})
    case Finish(r, now, e) =>
      if r !in sys.copies then sys
      else
        var copy := sys.copies[r];
        System(Written(sys.stored, copy, Totp.Next(copy, p, now, e)), sys.copies - {r}, sys.begun)
  }

  /** The step of a code that a finishing request accepts. */
  function StepAccepted(sys: System, p: Policy, step: Step): Option<int> {
    if step.Finish? && step.request in sys.copies
    then AcceptedStep(sys.copies[step.request], p, step.now, step.event) else None
  }

  predicate Valid(sys: System, p: Policy, steps: seq<Step>)
    decreases |steps|
  {
    steps != [] ==> Enabled(sys, steps[0]) && Valid(Do(sys, p, steps[0]), p, steps[1..])
  }

  function RunSteps(sys: System, p: Policy, steps: seq<Step>): System
    decreases |steps|
  {
    if steps == [] then sys else RunSteps(Do(sys, p, steps[0]), p, steps[1..])
  }

  function AllAccepted(sys: System, p: Policy, steps: seq<Step>): seq<int>
    decreases |steps|
  {
    if steps == [] then []
    else
      var step := StepAccepted(sys, p, steps[0]);
      (if step.Some? then [step.value] else []) + AllAccepted(Do(sys, p, steps[0]), p, steps[1..])
  }

  // -- requests that do not overlap ----------------------------------------

  /** Every request finishes before the next one reads. */
  function OneByOne(trace: Trace, r: Id): seq<Step>
    decreases |trace|
  {
    if trace == [] then [] else [Read(r), Finish(r, trace[0].0, trace[0].1)] + OneByOne(trace[1..], r + 1)
  }

  lemma AloneIsAtomic(sys: System, p: Policy, r: Id, now: int, e: Event)
    ensures var read := Do(sys, p, Read(r));
            && Do(read, p, Finish(r, now, e)).stored == Totp.Next(sys.stored, p, now, e)
            && StepAccepted(read, p, Finish(r, now, e)) == AcceptedStep(sys.stored, p, now, e)
            && StepAccepted(sys, p, Read(r)) == None
            && Do(read, p, Finish(r, now, e)).begun == sys.begun + {r}
  {
    hide AcceptedStep;
  }

  /** Requests one after the other are the atomic requests of a trace. */
  lemma {:induction false} OneByOneIsAtomic(sys: System, p: Policy, trace: Trace, r: Id)
    requires forall b | b in sys.begun :: b < r
    ensures Valid(sys, p, OneByOne(trace, r))
    ensures RunSteps(sys, p, OneByOne(trace, r)).stored == Run(sys.stored, p, trace)
    ensures AllAccepted(sys, p, OneByOne(trace, r)) == Totp.Accepted(sys.stored, p, trace)
    decreases |trace|
  {
    if trace != [] {
      var (now, e) := trace[0];
      var steps := OneByOne(trace, r);
      var read := Do(sys, p, Read(r));
      var next := Do(read, p, Finish(r, now, e));
      AloneIsAtomic(sys, p, r, now, e);
      assert Enabled(sys, steps[0]) && Enabled(read, steps[1]);
      assert steps[1..][1..] == OneByOne(trace[1..], r + 1);
      OneByOneIsAtomic(next, p, trace[1..], r + 1);
      hide Do, StepAccepted, Enabled, Totp.Next, AcceptedStep;
      assert AllAccepted(sys, p, steps) == AllAccepted(read, p, steps[1..]);
    }
  }

  // -- what stays recorded --------------------------------------------------

  ghost predicate AllSound(sys: System) {
    Sound(sys.stored) && forall r | r in sys.copies :: Sound(sys.copies[r])
  }

  /** An accepted login or confirmation still finds a secret, and the factor on if it saw it on. */
  predicate FinishesSound(sys: System, p: Policy, step: Step) {
    StepAccepted(sys, p, step).Some? && !step.event.Disable? ==>
      sys.stored.secret.Some? && (sys.copies[step.request].enabled ==> sys.stored.enabled)
  }

  lemma StepSoundIff(sys: System, p: Policy, step: Step)
    requires AllSound(sys) && Enabled(sys, step)
    ensures Sound(Do(sys, p, step).stored) <==> FinishesSound(sys, p, step)
    ensures FinishesSound(sys, p, step) ==> AllSound(Do(sys, p, step))
  {
    hide Verified;
  }

  ghost predicate SoundThroughout(sys: System, p: Policy, steps: seq<Step>)
    decreases |steps|
  {
    Sound(sys.stored) && (steps != [] ==> SoundThroughout(Do(sys, p, steps[0]), p, steps[1..]))
  }

  predicate AllFinishSound(sys: System, p: Policy, steps: seq<Step>)
    decreases |steps|
  {
    steps != [] ==> FinishesSound(sys, p, steps[0]) && AllFinishSound(Do(sys, p, steps[0]), p, steps[1..])
  }

  /** Along every interleaving a last step is on record exactly while the factor is on, if and
      only if no accepted login or confirmation finishes after a disable it did not see. */
  lemma {:induction false} SoundThroughoutIff(sys: System, p: Policy, steps: seq<Step>)
    requires AllSound(sys) && Valid(sys, p, steps)
    ensures SoundThroughout(sys, p, steps) <==> AllFinishSound(sys, p, steps)
    decreases |steps|
  {
    hide Enabled, Do, FinishesSound;
    if steps != [] {
      StepSoundIff(sys, p, steps[0]);
      if FinishesSound(sys, p, steps[0]) {
        SoundThroughoutIff(Do(sys, p, steps[0]), p, steps[1..]);
      }
    }
  }

  /** The secret does not change under a factor that is on and stays on. */
  predicate KeepsSecret(sys: System, p: Policy, step: Step) {
    sys.stored.enabled && Do(sys, p, step).stored.enabled ==> Do(sys, p, step).stored.secret == sys.stored.secret
  }

  /** An enrolment that saw the factor off begins anew after it was switched on. */
  predicate BeginsLate(sys: System, step: Step) {
    && step.Finish? && step.event.Begin? && step.request in sys.copies
    && !sys.copies[step.request].enabled && sys.stored.enabled
    && Some(step.event.newSecret) != sys.copies[step.request].secret && Some(step.event.newSecret) != sys.stored.secret
  }

  /** A step changes the secret of a factor that stays on exactly when it is such an enrolment. */
  lemma KeepsSecretIff(sys: System, p: Policy, step: Step)
    ensures KeepsSecret(sys, p, step) <==> !BeginsLate(sys, step)
  {
    hide Verified;
  }

  ghost predicate SecretKeptThroughout(sys: System, p: Policy, steps: seq<Step>)
    decreases |steps|
  {
    steps != [] ==> KeepsSecret(sys, p, steps[0]) && SecretKeptThroughout(Do(sys, p, steps[0]), p, steps[1..])
  }

  predicate NeverBeginsLate(sys: System, p: Policy, steps: seq<Step>)
    decreases |steps|
  {
    steps != [] ==> !BeginsLate(sys, steps[0]) && NeverBeginsLate(Do(sys, p, steps[0]), p, steps[1..])
  }

  /** Along every interleaving the secret is fixed while the factor is on, if and only if no
      enrolment that saw it off begins anew after it was switched on. */
  lemma {:induction false} SecretKeptThroughoutIff(sys: System, p: Policy, steps: seq<Step>)
    ensures SecretKeptThroughout(sys, p, steps) <==> NeverBeginsLate(sys, p, steps)
    decreases |steps|
  {
    hide Do, KeepsSecret, BeginsLate;
    if steps != [] {
      KeepsSecretIff(sys, p, steps[0]);
      SecretKeptThroughoutIff(Do(sys, p, steps[0]), p, steps[1..]);
    }
  }

  // -- runs that go wrong -----------------------------------------------------

  /** A code book with three codes, of which the windows of these runs hold the last three steps. */
  const DIGITS := Policy((secret: Id, k: int) => if k <= 4 then "4" else if k == 5 then "5" else "6", 1)
  const ON := Factor(true, Some(0), Some(3))
  const PENDING := Factor(false, Some(0), None)

  lemma DigitsVerify()
    ensures Verified(DIGITS.book, DIGITS.window, 0, "4", 150) == Some(4)
    ensures Verified(DIGITS.book, DIGITS.window, 0, "5", 150) == Some(5)
    ensures Verified(DIGITS.book, DIGITS.window, 0, "6", 150) == Some(6)
  {
    assert Text.Strip("4") == "4" && Text.Strip("5") == "5" && Text.Strip("6") == "6";
    assert Search(DIGITS.book, 0, "4", 4, 6) == Some(4) by {
      assert Search(DIGITS.book, 0, "4", 4, 5) == Some(4);
    }
  }

  function Login(r: Id, code: string): Step {
    Finish(r, 150, Authenticate(code))
  }

  /** One more step in front of a run. */
  lemma StepFirst(sys: System, step: Step, rest: seq<Step>, next: System)
    requires Enabled(sys, step) && Do(sys, DIGITS, step) == next && Valid(next, DIGITS, rest)
    ensures Valid(sys, DIGITS, [step] + rest)
    ensures var accepted := StepAccepted(sys, DIGITS, step);
            AllAccepted(sys, DIGITS, [step] + rest)
            == (if accepted.Some? then [accepted.value] else []) + AllAccepted(next, DIGITS, rest)
  {
    hide Do, StepAccepted, DIGITS, Enabled;
    assert ([step] + rest)[1..] == rest;
  }

  lemma NothingMore(sys: System)
    ensures Valid(sys, DIGITS, []) && AllAccepted(sys, DIGITS, []) == []
  {
  }

  /** The factor with another last step. */
  function OnAfter(k: int): Factor { ON.(last := Some(k)) }

  lemma LoginStep(r: Id, copy: Factor, code: string, k: int, sys: System)
    requires copy in {ON, OnAfter(4)} && Verified(DIGITS.book, DIGITS.window, 0, code, 150) == Some(k) && code != ""
    requires k > copy.last.value && r in sys.copies && sys.copies[r] == copy && SameButLast(sys.stored, ON)
    ensures StepAccepted(sys, DIGITS, Login(r, code)) == Some(k)
    ensures Do(sys, DIGITS, Login(r, code)) == System(OnAfter(k), sys.copies - {r}, sys.begun)
  {
    hide Verified, DIGITS;
  }

  const BOTH_READ := System(ON, map[1 := ON, 2 := ON], {1, 2})

  lemma BothRead(rest: seq<Step>)
    requires Valid(BOTH_READ, DIGITS, rest)
    ensures var (sys, steps) := (System(ON, map[], {}), [Read(1)] + ([Read(2)] + rest));
            Valid(sys, DIGITS, steps) && AllAccepted(sys, DIGITS, steps) == AllAccepted(BOTH_READ, DIGITS, rest)
  {
    hide Valid, AllAccepted;
    StepFirst(System(ON, map[1 := ON], {1}), Read(2), rest, BOTH_READ);
    StepFirst(System(ON, map[], {}), Read(1), [Read(2)] + rest, System(ON, map[1 := ON], {1}));
  }

  /** Two logins that both read first accept the same step. */
  lemma TwoLoginsAcceptOneStep()
    ensures var (sys, steps) := (System(ON, map[], {}), [Read(1), Read(2), Login(1, "5"), Login(2, "5")]);
            Valid(sys, DIGITS, steps) && AllAccepted(sys, DIGITS, steps) == [5, 5]
  {
    hide Verified, DIGITS;
    DigitsVerify();
    var s3 := System(OnAfter(5), map[2 := ON], {1, 2});
    assert map[1 := ON, 2 := ON] - {1} == map[2 := ON];
    LoginStep(1, ON, "5", 5, BOTH_READ);
    LoginStep(2, ON, "5", 5, s3);
    var end := System(OnAfter(5), map[2 := ON] - {2}, {1, 2});
    NothingMore(end);
    hide Do, StepAccepted, Valid, AllAccepted, BOTH_READ;
    StepFirst(s3, Login(2, "5"), [], end);
    StepFirst(BOTH_READ, Login(1, "5"), [Login(2, "5")], s3);
    BothRead([Login(1, "5")] + [Login(2, "5")]);
    assert [Read(1), Read(2), Login(1, "5"), Login(2, "5")]
        == [Read(1)] + ([Read(2)] + ([Login(1, "5")] + [Login(2, "5")]));
  }

  const ONE_FINISHED := System(OnAfter(5), map[2 := ON], {1, 2})

  lemma SecondTakesItBack()
    ensures var steps := [Login(2, "4")] + ([Read(3)] + [Login(3, "5")]);
            Valid(ONE_FINISHED, DIGITS, steps) && AllAccepted(ONE_FINISHED, DIGITS, steps) == [4, 5]
  {
    hide Verified, DIGITS;
    DigitsVerify();
    var s4 := System(OnAfter(4), map[2 := ON] - {2}, {1, 2});
    var s5 := System(OnAfter(4), s4.copies[3 := OnAfter(4)], {1, 2} + {3});
    var end := System(OnAfter(5), s5.copies - {3}, s5.begun);
    LoginStep(2, ON, "4", 4, ONE_FINISHED);
    LoginStep(3, OnAfter(4), "5", 5, s5);
    assert Do(s4, DIGITS, Read(3)) == s5 && Enabled(s4, Read(3)) && StepAccepted(s4, DIGITS, Read(3)) == None;
    NothingMore(end);
    assert Enabled(s5, Login(3, "5")) && Enabled(ONE_FINISHED, Login(2, "4"));
    hide Do, StepAccepted, Valid, AllAccepted, Login, Enabled, OnAfter;
    StepFirst(s5, Login(3, "5"), [], end);
    assert [Login(3, "5")] + [] == [Login(3, "5")];
    StepFirst(s4, Read(3), [Login(3, "5")], s5);
    StepFirst(ONE_FINISHED, Login(2, "4"), [Read(3)] + [Login(3, "5")], s4);
  }

  /** The second one can also take the counter back, and a login that overlaps nobody then
      accepts a step that was burnt before. */
  lemma CounterGoesBack()
    ensures var rest := [Login(2, "4")] + ([Read(3)] + [Login(3, "5")]);
            var (sys, steps) := (System(ON, map[], {}), [Read(1)] + ([Read(2)] + ([Login(1, "5")] + rest)));
            Valid(sys, DIGITS, steps) && AllAccepted(sys, DIGITS, steps) == [5, 4, 5]
  {
    hide Verified, DIGITS;
    DigitsVerify();
    SecondTakesItBack();
    assert map[1 := ON, 2 := ON] - {1} == map[2 := ON];
    LoginStep(1, ON, "5", 5, BOTH_READ);
    assert Enabled(BOTH_READ, Login(1, "5"));
    var rest := [Login(2, "4")] + ([Read(3)] + [Login(3, "5")]);
    hide Do, StepAccepted, Valid, AllAccepted, Login, Enabled;
    StepFirst(BOTH_READ, Login(1, "5"), rest, ONE_FINISHED);
    BothRead([Login(1, "5")] + rest);
  }

  /** A login that overlaps a disable leaves a last step on a factor that is off. */
  lemma LoginAfterDisable()
    ensures var sys := System(ON, map[1 := ON, 2 := ON], {1, 2});
            var off := Do(sys, DIGITS, Finish(1, 150, Disable("5")));
            off.stored == OFF && Do(off, DIGITS, Login(2, "6")).stored == Factor(false, None, Some(6))
  {
    hide Verified, DIGITS;
    DigitsVerify();
  }

  /** An enrolment that overlaps a confirmation replaces the secret of a factor that is on. */
  lemma BeginAfterConfirm()
    ensures var sys := System(PENDING, map[1 := PENDING, 2 := PENDING], {1, 2});
            var on := Do(sys, DIGITS, Finish(1, 150, Confirm("5")));
            on.stored == Factor(true, Some(0), Some(5))
            && Do(on, DIGITS, Finish(2, 150, Begin(7))).stored == Factor(true, Some(7), Some(5))
  {
    hide Verified, DIGITS;
    DigitsVerify();
  }

  // -- schedules of logins ---------------------------------------------------

  /** When a login reads the user, and when it checks its code and writes. */
  datatype Slot =
    | Begins(login: Id)
    | Ends(login: Id, now: int)

  type Slots = seq<Slot>

  /** Logins begin at most once and end at most once, after they began. */
  predicate WellFormed(slots: Slots) {
    && (forall i, j | 0 <= i < j < |slots| && slots[i].Begins? && slots[j].Begins? :: slots[i].login != slots[j].login)
    && (forall i, j | 0 <= i < j < |slots| && slots[i].Ends? && slots[j].Ends? :: slots[i].login != slots[j].login)
    && (forall j | 0 <= j < |slots| && slots[j].Ends? :: exists a | 0 <= a < j :: slots[a] == Begins(slots[j].login))
  }

  type Codes = seq<string>

  function SlotStep(slots: Slots, codes: Codes, k: nat): Step
    requires k < |slots| == |codes|
  {
    if slots[k].Begins? then Read(slots[k].login) else Finish(slots[k].login, slots[k].now, Authenticate(codes[k]))
  }

  /** The system after the first `k` slots, every login presenting the code of its last slot. */
  function At(f: Factor, p: Policy, slots: Slots, codes: Codes, k: nat): System
    requires k <= |slots| == |codes|
  {
    if k == 0 then System(f, map[], {}) else Do(At(f, p, slots, codes, k - 1), p, SlotStep(slots, codes, k - 1))
  }

  function AcceptedAt(f: Factor, p: Policy, slots: Slots, codes: Codes, k: nat): Option<int>
    requires k < |slots| == |codes|
  {
    StepAccepted(At(f, p, slots, codes, k), p, SlotStep(slots, codes, k))
  }

  function AcceptedUpTo(f: Factor, p: Policy, slots: Slots, codes: Codes, k: nat): seq<int>
    requires k <= |slots| == |codes|
  {
    if k == 0 then []
    else
      var step := AcceptedAt(f, p, slots, codes, k - 1);
      AcceptedUpTo(f, p, slots, codes, k - 1) + if step.Some? then [step.value] else []
  }

  predicate Beyond(last: Option<int>, step: int) {
    last.Some? ==> step > last.value
  }

  predicate InWindow(now: int, window: nat, step: int) {
    now / INTERVAL - window <= step <= now / INTERVAL + window
  }

  /** Login `j` read before login `i` finished, and finishes after it. */
  predicate Overlap(slots: Slots, i: nat, j: nat)
    requires i < j < |slots|
  {
    slots[i].Ends? && slots[j].Ends? && exists a | 0 <= a < i :: slots[a] == Begins(slots[j].login)
  }

  /** No step that the later login can still accept is one the earlier one can have burnt. */
  predicate Clear(earlier: int, later: int, window: nat, last: Option<int>) {
    var high := if earlier < later then earlier / INTERVAL + window else later / INTERVAL + window;
    high < later / INTERVAL - window || (last.Some? && high <= last.value)
  }

  predicate Apart(slots: Slots, window: nat, last: Option<int>) {
    forall i: nat, j: nat | i < j < |slots| && Overlap(slots, i, j) :: Clear(slots[i].now, slots[j].now, window, last)
  }

  lemma ClearMeans(earlier: int, later: int, window: nat, last: Option<int>)
    ensures Clear(earlier, later, window, last) <==>
      !exists s :: InWindow(later, window, s) && Beyond(last, s) && s <= earlier / INTERVAL + window
  {
    var high := if earlier < later then earlier / INTERVAL + window else later / INTERVAL + window;
    assert earlier < later ==> earlier / INTERVAL <= later / INTERVAL;
    assert earlier >= later ==> earlier / INTERVAL >= later / INTERVAL;
    if !Clear(earlier, later, window, last) {
      assert InWindow(later, window, high) && Beyond(last, high);
    }
  }

  /** On a clock that does not go back, with nothing burnt ahead of the later login: the windows
      of the two logins do not meet. */
  lemma ClearOnAClock(earlier: int, later: int, window: nat, last: Option<int>)
    requires earlier <= later && Beyond(last, later / INTERVAL - window)
    ensures Clear(earlier, later, window, last) <==> later / INTERVAL - window > earlier / INTERVAL + window
  {
  }

  // -- every login works on what it read -------------------------------------

  lemma {:induction false} CopyFromBegin(f: Factor, p: Policy, slots: Slots, codes: Codes, a: nat, k: nat)
    requires WellFormed(slots) && a < k <= |slots| == |codes| && slots[a].Begins?
    requires forall i | a < i < k && slots[i].Ends? :: slots[i].login != slots[a].login
    ensures slots[a].login in At(f, p, slots, codes, k).copies
    ensures At(f, p, slots, codes, k).copies[slots[a].login] == At(f, p, slots, codes, a).stored
    decreases k
  {
    if k > a + 1 {
      CopyFromBegin(f, p, slots, codes, a, k - 1);
      hide Totp.Next, Written, WellFormed;
      assert slots[k - 1].login != slots[a].login by {
        SameKindDiffers(slots, a, k - 1);
      }
    }
  }

  lemma SameKindDiffers(slots: Slots, a: nat, i: nat)
    requires WellFormed(slots) && a < i < |slots| && slots[a].Begins?
    ensures slots[i].Begins? ==> slots[i].login != slots[a].login
  {
  }

  lemma BeginOf(slots: Slots, k: nat) returns (a: nat)
    requires WellFormed(slots) && k < |slots| && slots[k].Ends?
    ensures a < k && slots[a] == Begins(slots[k].login)
    ensures forall i | a < i < k && slots[i].Ends? :: slots[i].login != slots[a].login
  {
    var b :| 0 <= b < k && slots[b] == Begins(slots[k].login);
    a := b;
  }

  /** The same factor, with another last step at most. */
  predicate SameButLast(f: Factor, g: Factor) {
    f.enabled == g.enabled && f.secret == g.secret
  }

  lemma {:induction false} LoginsKeepFactor(f: Factor, p: Policy, slots: Slots, codes: Codes, k: nat)
    requires WellFormed(slots) && k <= |slots| == |codes|
    ensures SameButLast(At(f, p, slots, codes, k).stored, f)
    decreases k
  {
    if k > 0 {
      LoginsKeepFactor(f, p, slots, codes, k - 1);
      if slots[k - 1].Ends? {
        var a := BeginOf(slots, k - 1);
        CopyFromBegin(f, p, slots, codes, a, k - 1);
        LoginsKeepFactor(f, p, slots, codes, a);
      }
      hide Verified, WellFormed;
    }
  }

  lemma AcceptedIsMatch(f: Factor, p: Policy, now: int, code: string)
    ensures var step := AcceptedStep(f, p, now, Authenticate(code));
            step.Some? ==> InWindow(now, p.window, step.value) && Beyond(f.last, step.value)
  {
    if f.secret.Some? {
      var stripped := Text.Strip(code);
      SearchFindsLatest(p.book, f.secret.value, stripped, now / INTERVAL - p.window, now / INTERVAL + p.window);
    }
  }

  /** What one slot does: nothing, or a login burns a step beyond the last one it has read. */
  lemma SlotEffect(f: Factor, p: Policy, slots: Slots, codes: Codes, k: nat) returns (a: nat)
    requires WellFormed(slots) && k < |slots| == |codes|
    ensures var (before, after) := (At(f, p, slots, codes, k).stored, At(f, p, slots, codes, k + 1).stored);
            var step := AcceptedAt(f, p, slots, codes, k);
            && after == (if step.Some? then before.(last := step) else before)
            && (slots[k].Ends? ==>
                  && a < k && slots[a] == Begins(slots[k].login)
                  && step == AcceptedStep(At(f, p, slots, codes, a).stored, p, slots[k].now, Authenticate(codes[k])))
            && (step.Some? ==>
                  && slots[k].Ends? && InWindow(slots[k].now, p.window, step.value)
                  && Beyond(At(f, p, slots, codes, a).stored.last, step.value))
  {
    a := 0;
    if slots[k].Ends? {
      a := BeginOf(slots, k);
      CopyFromBegin(f, p, slots, codes, a, k);
      LoginsKeepFactor(f, p, slots, codes, a);
      LoginsKeepFactor(f, p, slots, codes, k);
      AcceptedIsMatch(At(f, p, slots, codes, a).stored, p, slots[k].now, codes[k]);
    }
    hide Verified, WellFormed, Burnt;
  }

  // -- logins that are apart ---------------------------------------------------

  predicate NotBelow(last: Option<int>, than: Option<int>) {
    than.Some? ==> last.Some? && last.value >= than.value
  }

  lemma {:induction false} AcceptedEarlierOrSince(f: Factor, p: Policy, slots: Slots, codes: Codes, a: nat, k: nat, x: int)
    returns (i: nat)
    requires a <= k <= |slots| == |codes| && x in AcceptedUpTo(f, p, slots, codes, k)
    ensures x in AcceptedUpTo(f, p, slots, codes, a) || (a <= i < k && AcceptedAt(f, p, slots, codes, i) == Some(x))
    decreases k
  {
    i := a;
    if a < k {
      hide AcceptedAt;
      if AcceptedAt(f, p, slots, codes, k - 1) == Some(x) {
        i := k - 1;
      } else {
        i := AcceptedEarlierOrSince(f, p, slots, codes, a, k - 1, x);
      }
    }
  }

  /** Accepted steps that increase, and the last step on record among them or where it began. */
  predicate OrderedBy(accepted: seq<int>, last: Option<int>, began: Option<int>) {
    && Increasing(accepted)
    && (forall x | x in accepted :: !Beyond(last, x))
    && NotBelow(last, began)
  }

  lemma OrderedAppend(accepted: seq<int>, last: Option<int>, began: Option<int>, b: int)
    requires OrderedBy(accepted, last, began) && Beyond(began, b) && forall x | x in accepted :: x < b
    ensures OrderedBy(accepted + [b], Some(b), began)
  {
    AppendGreater(accepted, b);
    hide Increasing;
  }

  ghost predicate Ordered(f: Factor, p: Policy, slots: Slots, codes: Codes, k: nat)
    requires k <= |slots| == |codes|
  {
    OrderedBy(AcceptedUpTo(f, p, slots, codes, k), At(f, p, slots, codes, k).stored.last, f.last)
  }

  lemma LaterStepIsGreater(f: Factor, p: Policy, slots: Slots, codes: Codes, k: nat, a: nat, b: int, x: int)
    requires WellFormed(slots) && Apart(slots, p.window, f.last) && a < k < |slots| == |codes|
    requires Ordered(f, p, slots, codes, a) && slots[k].Ends? && slots[a] == Begins(slots[k].login)
    requires InWindow(slots[k].now, p.window, b) && Beyond(At(f, p, slots, codes, a).stored.last, b)
    requires x in AcceptedUpTo(f, p, slots, codes, k)
    ensures x < b
  {
    hide At, AcceptedUpTo, AcceptedAt, WellFormed, Clear;
    var i := AcceptedEarlierOrSince(f, p, slots, codes, a, k, x);
    if x !in AcceptedUpTo(f, p, slots, codes, a) {
      var c := SlotEffect(f, p, slots, codes, i);
      assert i != a && Overlap(slots, i, k);
      ClearMeans(slots[i].now, slots[k].now, p.window, f.last);
    }
  }

  lemma AppendGreater(s: seq<int>, b: int)
    requires Increasing(s) && forall x | x in s :: x < b
    ensures Increasing(s + [b])
  {
    forall i, j | 0 <= i < j < |s + [b]| ensures (s + [b])[i] < (s + [b])[j] {
      assert i < |s| && s[i] in s;
    }
  }

  lemma OrderedStep(f: Factor, p: Policy, slots: Slots, codes: Codes, k: nat, a: nat, b: int)
    requires WellFormed(slots) && Apart(slots, p.window, f.last) && a < k < |slots| == |codes|
    requires Ordered(f, p, slots, codes, k) && Ordered(f, p, slots, codes, a)
    requires slots[k].Ends? && slots[a] == Begins(slots[k].login) && InWindow(slots[k].now, p.window, b)
    requires Beyond(At(f, p, slots, codes, a).stored.last, b)
    ensures OrderedBy(AcceptedUpTo(f, p, slots, codes, k) + [b], Some(b), f.last)
  {
    hide At, AcceptedUpTo, AcceptedAt, WellFormed, Apart, OrderedBy, InWindow;
    var before := AcceptedUpTo(f, p, slots, codes, k);
    forall x | x in before ensures x < b {
      LaterStepIsGreater(f, p, slots, codes, k, a, b, x);
    }
    BeyondBegan(AcceptedUpTo(f, p, slots, codes, a), At(f, p, slots, codes, a).stored.last, f.last, b);
    OrderedAppend(before, At(f, p, slots, codes, k).stored.last, f.last, b);
  }

  lemma {:induction false} ApartStaysOrdered(f: Factor, p: Policy, slots: Slots, codes: Codes, k: nat)
    requires WellFormed(slots) && Apart(slots, p.window, f.last) && k <= |slots| == |codes|
    ensures Ordered(f, p, slots, codes, k)
    decreases k
  {
    hide At, AcceptedUpTo, AcceptedAt, WellFormed, Apart, OrderedBy, InWindow, AcceptedStep;
    if k == 0 {
      NothingOrdered(f, p, slots, codes);
    } else {
      ApartStaysOrdered(f, p, slots, codes, k - 1);
      var a := SlotEffect(f, p, slots, codes, k - 1);
      AcceptedGrows(f, p, slots, codes, k - 1);
      var step := AcceptedAt(f, p, slots, codes, k - 1);
      if step.Some? {
        ApartStaysOrdered(f, p, slots, codes, a);
        OrderedStep(f, p, slots, codes, k - 1, a, step.value);
      }
    }
  }

  lemma NothingOrdered(f: Factor, p: Policy, slots: Slots, codes: Codes)
    requires |slots| == |codes|
    ensures Ordered(f, p, slots, codes, 0)
  {
  }

  lemma AcceptedGrows(f: Factor, p: Policy, slots: Slots, codes: Codes, k: nat)
    requires k < |slots| == |codes|
    ensures var step := AcceptedAt(f, p, slots, codes, k);
            AcceptedUpTo(f, p, slots, codes, k + 1)
            == if step.Some? then AcceptedUpTo(f, p, slots, codes, k) + [step.value] else AcceptedUpTo(f, p, slots, codes, k)
  {
    hide AcceptedAt;
  }

  lemma BeyondBegan(accepted: seq<int>, last: Option<int>, began: Option<int>, b: int)
    requires OrderedBy(accepted, last, began) && Beyond(last, b)
    ensures Beyond(began, b)
  {
  }

  // -- logins that are not -------------------------------------------------------

  /** Codes are digits, and no two steps of one window show the same. */
  ghost predicate Readable(p: Policy, secret: Id) {
    && (forall k :: Text.IsDigits(p.book(secret, k)) && Text.Strip(p.book(secret, k)) == p.book(secret, k))
    && (forall k, k' | k < k' <= k + 2 * p.window :: p.book(secret, k) != p.book(secret, k'))
  }

  /** A code that belongs to a step of the window verifies as that step. */
  lemma CodeVerifies(p: Policy, secret: Id, now: int, s: int)
    requires Readable(p, secret) && InWindow(now, p.window, s)
    ensures Verified(p.book, p.window, secret, p.book(secret, s), now) == Some(s)
  {
    var code := p.book(secret, s);
    assert Text.Strip(code) == code;
    var (low, high) := (now / INTERVAL - p.window, now / INTERVAL + p.window);
    SearchFindsLatest(p.book, secret, code, low, high);
    assert forall k | low <= k <= high && k != s :: p.book(secret, k) != code;
  }

  lemma CodeAccepted(f: Factor, p: Policy, now: int, s: int)
    requires f.enabled && f.secret.Some? && Readable(p, f.secret.value) && InWindow(now, p.window, s) && Beyond(f.last, s)
    ensures AcceptedStep(f, p, now, Authenticate(p.book(f.secret.value, s))) == Some(s)
  {
    CodeVerifies(p, f.secret.value, now, s);
    assert Text.IsDigits(p.book(f.secret.value, s));
    hide Verified, Readable;
  }

  /** Two logins present a code each, every other one nothing. */
  function TwoCodes(n: nat, i: nat, first: string, j: nat, second: string): (codes: Codes)
    ensures |codes| == n
    ensures forall k | 0 <= k < n :: codes[k] == if k == i then first else if k == j then second else ""
  {
    seq(n, k => if k == i then first else if k == j then second else "")
  }

  lemma {:induction false} QuietUntil(f: Factor, p: Policy, slots: Slots, codes: Codes, k: nat)
    requires WellFormed(slots) && k <= |slots| == |codes| && forall i | 0 <= i < k :: codes[i] == ""
    ensures At(f, p, slots, codes, k).stored == f
    decreases k
  {
    if k > 0 {
      QuietUntil(f, p, slots, codes, k - 1);
      var a := SlotEffect(f, p, slots, codes, k - 1);
      hide At, WellFormed, Verified;
    }
  }

  lemma {:induction false} AcceptedStays(f: Factor, p: Policy, slots: Slots, codes: Codes, k: nat, n: nat)
    requires k <= n <= |slots| == |codes|
    ensures AcceptedUpTo(f, p, slots, codes, k) <= AcceptedUpTo(f, p, slots, codes, n)
    decreases n
  {
    hide AcceptedAt;
    if k < n {
      AcceptedStays(f, p, slots, codes, k, n - 1);
    }
  }

  lemma PairNotIncreasing(f: Factor, p: Policy, slots: Slots, codes: Codes, i: nat, j: nat)
    requires i < j < |slots| == |codes|
    requires AcceptedAt(f, p, slots, codes, i).Some? && AcceptedAt(f, p, slots, codes, j).Some?
    requires AcceptedAt(f, p, slots, codes, i).value >= AcceptedAt(f, p, slots, codes, j).value
    ensures !Increasing(AcceptedUpTo(f, p, slots, codes, |slots|))
  {
    hide AcceptedAt;
    var (upToI, upToJ) := (AcceptedUpTo(f, p, slots, codes, i + 1), AcceptedUpTo(f, p, slots, codes, j + 1));
    AcceptedStays(f, p, slots, codes, i + 1, j);
    AcceptedStays(f, p, slots, codes, j + 1, |slots|);
    assert upToI[|upToI| - 1] == AcceptedAt(f, p, slots, codes, i).value;
    assert upToJ[|upToJ| - 1] == AcceptedAt(f, p, slots, codes, j).value;
    var all := AcceptedUpTo(f, p, slots, codes, |slots|);
    assert |upToI| < |upToJ| && upToJ[|upToI| - 1] == upToI[|upToI| - 1];
    assert all[|upToI| - 1] == upToJ[|upToI| - 1] && all[|upToJ| - 1] == upToJ[|upToJ| - 1];
  }

  /** Two overlapping logins that are not clear of each other: the second accepts a step no later
      than the first. */
  lemma OverlapAcceptsBackwards(f: Factor, p: Policy, slots: Slots, i: nat, j: nat) returns (codes: Codes)
    requires f.enabled && f.secret.Some? && Readable(p, f.secret.value) && WellFormed(slots) && i < j < |slots|
    requires Overlap(slots, i, j) && !Clear(slots[i].now, slots[j].now, p.window, f.last)
    ensures |codes| == |slots| && !Increasing(AcceptedUpTo(f, p, slots, codes, |slots|))
  {
    ClearMeans(slots[i].now, slots[j].now, p.window, f.last);
    var s :| InWindow(slots[j].now, p.window, s) && Beyond(f.last, s) && s <= slots[i].now / INTERVAL + p.window;
    var top := slots[i].now / INTERVAL + p.window;
    var secret := f.secret.value;
    codes := TwoCodes(|slots|, i, p.book(secret, top), j, p.book(secret, s));
    var a := SlotEffect(f, p, slots, codes, i);
    var b := SlotEffect(f, p, slots, codes, j);
    assert b < i by {
      OneBegin(slots, b, i, j);
    }
    QuietUntil(f, p, slots, codes, a);
    QuietUntil(f, p, slots, codes, b);
    CodeAccepted(f, p, slots[i].now, top);
    CodeAccepted(f, p, slots[j].now, s);
    hide At, AcceptedAt, AcceptedStep, WellFormed, Readable, Increasing, AcceptedUpTo;
    PairNotIncreasing(f, p, slots, codes, i, j);
  }

  lemma OneBegin(slots: Slots, b: nat, i: nat, j: nat)
    requires WellFormed(slots) && i < j < |slots| && Overlap(slots, i, j)
    requires b < j && slots[b] == Begins(slots[j].login)
    ensures b < i
  {
    var a :| 0 <= a < i && slots[a] == Begins(slots[j].login);
    if a != b {
      assert slots[a].Begins? && slots[b].Begins? && slots[a].login == slots[b].login;
      assert a < b || b < a;
    }
  }

  /** For every schedule of logins: whatever codes are presented, the accepted steps strictly
      increase, if and only if every two logins that overlap are clear of each other. */
  lemma LoginsIncreaseIff(f: Factor, p: Policy, slots: Slots)
    requires f.enabled && f.secret.Some? && Readable(p, f.secret.value) && WellFormed(slots)
    ensures (forall codes: Codes | |codes| == |slots| :: Increasing(AcceptedUpTo(f, p, slots, codes, |slots|)))
            <==> Apart(slots, p.window, f.last)
  {
    hide AcceptedUpTo, Increasing, Readable, WellFormed, Clear;
    if Apart(slots, p.window, f.last) {
      forall codes: Codes | |codes| == |slots| ensures Increasing(AcceptedUpTo(f, p, slots, codes, |slots|)) {
        ApartStaysOrdered(f, p, slots, codes, |slots|);
      }
    } else {
      var i: nat, j: nat :| i < j < |slots| && Overlap(slots, i, j) && !Clear(slots[i].now, slots[j].now, p.window, f.last);
      var codes := OverlapAcceptsBackwards(f, p, slots, i, j);
    }
  }

  // -- what being apart gives ------------------------------------------------------

  predicate NoOverlap(slots: Slots) {
    forall i: nat, j: nat | i < j < |slots| :: !Overlap(slots, i, j)
  }

  lemma {:induction false} AcceptedWithin(f: Factor, p: Policy, slots: Slots, codes: Codes, k: nat, t0: int, t1: int)
    requires WellFormed(slots) && k <= |slots| == |codes|
    requires forall i | 0 <= i < |slots| && slots[i].Ends? :: t0 <= slots[i].now <= t1
    ensures forall x | x in AcceptedUpTo(f, p, slots, codes, k) :: t0 / INTERVAL - p.window <= x <= t1 / INTERVAL + p.window
    decreases k
  {
    if k > 0 {
      AcceptedWithin(f, p, slots, codes, k - 1, t0, t1);
      var a := SlotEffect(f, p, slots, codes, k - 1);
      hide At, AcceptedAt, WellFormed;
    }
  }

  /** Logins that are apart accept, during [t0, t1], at most one code per step in reach, and
      logins that do not overlap are apart. */
  lemma ApartCount(f: Factor, p: Policy, slots: Slots, codes: Codes, t0: int, t1: int)
    requires WellFormed(slots) && |slots| == |codes| && t0 <= t1
    requires forall i | 0 <= i < |slots| && slots[i].Ends? :: t0 <= slots[i].now <= t1
    ensures NoOverlap(slots) ==> Apart(slots, p.window, f.last)
    ensures Apart(slots, p.window, f.last) ==>
      |AcceptedUpTo(f, p, slots, codes, |slots|)| <= t1 / INTERVAL - t0 / INTERVAL + 2 * p.window + 1
  {
    if Apart(slots, p.window, f.last) {
      ApartStaysOrdered(f, p, slots, codes, |slots|);
      AcceptedWithin(f, p, slots, codes, |slots|, t0, t1);
      hide AcceptedUpTo, At, WellFormed, Apart;
      IncreasingFits(AcceptedUpTo(f, p, slots, codes, |slots|), t0 / INTERVAL - p.window, t1 / INTERVAL + p.window);
    }
  }
}
