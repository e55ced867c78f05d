/**
 What an OK on a close is worth. A command's transitions are collected, attempts and backoffs
 alike; the close is confirmed when one of them is the observation a close is verified by. The main
 theorem says exactly when a command's OK has that behind it.
 */
module CloseEvidence {
  import opened ValveFsm
  import opened DriverSteps
  import opened CommandRuns

  /** The transition of the machine a moment brings about, if it reaches the machine at all. */
  function StepsOf(c: Config, h: Host, m: Moment): (r: seq<Transition>)
    ensures |r| <= 1
  {
    if !Enabled(h, m) then []
    else
      match m.input
      case Notice(e) => [Step(c, h.fsm, e).1]
      case Expire(t) => [Step(c, h.fsm, h.timers[t]).1]
      case _ => []
  }

  function StepsOfAll(c: Config, h: Host, moments: seq<Moment>): seq<Transition>
    decreases |moments|
  {
    if moments == [] then [] else StepsOf(c, h, moments[0]) + StepsOfAll(c, Offered(c, h, moments[0]), moments[1..])
  }

  /** The same, until the future is settled. */
  function WaitSteps(c: Config, h: Host, moments: seq<Moment>): seq<Transition>
    decreases |moments|
  {
    if moments == [] || h.completion != Pending then []
    else StepsOf(c, h, moments[0]) + WaitSteps(c, Offered(c, h, moments[0]), moments[1..])
  }

  /** The command, and its confirmation by level if there is one. */
  function BeginSteps(c: Config, h: Host, cmd: Command, levelMatches: bool, env: Env): seq<Transition> {
    var started := Dispatch(c, h.(expected := Terminals(c, cmd), completion := Pending), EventOf(cmd), env);
    [Step(c, h.fsm, EventOf(cmd)).1]
    + if started.completion == Pending && levelMatches then [Step(c, started.fsm, Confirmation(cmd)).1] else []
  }

  function AttemptSteps(c: Config, h: Host, cmd: Command, cycle: Cycle): seq<Transition> {
    BeginSteps(c, h, cmd, cycle.levelMatches, cycle.env)
    + WaitSteps(c, Begin(c, h, cmd, cycle.levelMatches, cycle.env), cycle.during)
  }

  function RetriedSteps(c: Config, h: Host, cmd: Command, cycles: seq<Cycle>, maxRetries: nat, retries: nat)
    : seq<Transition>
    requires retries <= maxRetries < |cycles|
    decreases maxRetries - retries
  {
    var after := Attempted(c, h, cmd, cycles[retries]);
    AttemptSteps(c, h, cmd, cycles[retries])
    + if !after.completion.Done? || !IsRetryable(after.completion.result) || retries >= maxRetries then []
      else
        StepsOfAll(c, after, cycles[retries].backoff)
        + RetriedSteps(c, OfferedAll(c, after, cycles[retries].backoff), cmd, cycles, maxRetries, retries + 1)
  }

  function CommandedSteps(c: Config, h: Host, cmd: Command, readable: bool, cycles: seq<Cycle>, maxRetries: nat)
    : seq<Transition>
    requires maxRetries < |cycles|
  {
    if h.fsm.state == Maintenance || !readable then [] else RetriedSteps(c, h, cmd, cycles, maxRetries, 0)
  }

  // ---------- Confirmation

  /**
   A close is confirmed by the switch seen off while it is waited for, or, with a meter, by flow
   seen to be zero in the leak window, which itself lies behind such an off (`ClosedSawOff`).
   */
  predicate Confirms(c: Config, t: Transition) {
    if c.hasFlowMeter then t.fromState == Closed && t.event == ObsFlowZero
    else t.fromState == ReqClose && t.event == ObsSwitchOff
  }

  ghost predicate Confirmed(c: Config, steps: seq<Transition>) {
    exists t :: t in steps && Confirms(c, t)
  }

  ghost predicate WentUnavailable(steps: seq<Transition>) {
    exists t :: t in steps && t.event == ObsUnavailable
  }

  lemma ConfirmedConcat(c: Config, a: seq<Transition>, b: seq<Transition>)
    ensures Confirmed(c, a + b) <==> Confirmed(c, a) || Confirmed(c, b)
    ensures WentUnavailable(a + b) <==> WentUnavailable(a) || WentUnavailable(b)
  {
    assert forall t :: t in a + b <==> t in a || t in b;
  }

  // ---------- A close that waits

  ghost predicate Waits(c: Config, h: Host) {
    && WellTimed(c, h) && h.completion == Pending && h.expected == Terminals(c, CloseValve)
    && h.fsm.state in {ReqClose, Closed, Unreachable}
  }

  /** Everything that can reach the machine while a close waits. */
  lemma WaitingStep(c: Config, h: Host, e: Event)
    requires h.fsm.state in {ReqClose, Closed, Unreachable} && (!c.hasFlowMeter ==> h.fsm.state != Closed)
    requires External(e) || exists t :: t in DriverSteps.Awaited(c, h.fsm.state) && e in Expiries(t)
    ensures var (f, t) := Step(c, h.fsm, e);
      var settled := Settle(Pending, Terminals(c, CloseValve), t);
      && (settled == Pending <==> f.state in {ReqClose, Closed, Unreachable})
      && (Confirms(c, t) ==> settled == Done(Ok) && h.fsm.state != Unreachable && e != ObsUnavailable)
      && (settled == Done(Ok) && h.fsm.state != Unreachable ==> Confirms(c, t) && e != ObsUnavailable)
      && (settled == Pending ==> (f.state == Unreachable <==> h.fsm.state == Unreachable || e == ObsUnavailable))
      && (settled.Done? && settled != Done(Ok) ==> !Confirms(c, t))
  {
  }

  lemma WaitingMoment(c: Config, h: Host, m: Moment)
    requires Waits(c, h) && Enabled(h, m)
    requires m.input.Notice? || m.input.Expire? || m.input.WatchdogFires?
    ensures var h', steps := Apply(c, h, m), StepsOf(c, h, m);
      && (h'.completion == Pending ==> Waits(c, h'))
      && (Confirmed(c, steps) ==> h'.completion == Done(Ok) && h.fsm.state != Unreachable && !WentUnavailable(steps))
      && (h'.completion == Done(Ok) && h.fsm.state != Unreachable ==> Confirmed(c, steps) && !WentUnavailable(steps))
      && (h'.completion == Pending ==>
            (h'.fsm.state == Unreachable <==> h.fsm.state == Unreachable || WentUnavailable(steps)))
  {
    MomentKeepsTimers(c, h, m);
    match m.input
    case Notice(e) =>
      WaitingStep(c, h, e);
      OneStep(c, Step(c, h.fsm, e).1);
      hide Step, Execute, Guard, Confirms, WellTimed;
      assert Apply(c, h, m).completion == Settle(Pending, Terminals(c, CloseValve), Step(c, h.fsm, e).1);
    case Expire(t) =>
      WaitingStep(c, h, h.timers[t]);
      OneStep(c, Step(c, h.fsm, h.timers[t]).1);
      hide Step, Execute, Guard, Confirms;
      assert Apply(c, h, m).completion == Settle(Pending, Terminals(c, CloseValve), Step(c, h.fsm, h.timers[t]).1);
    case WatchdogFires =>
  }

  lemma OneStep(c: Config, t: Transition)
    ensures Confirmed(c, [t]) <==> Confirms(c, t)
    ensures WentUnavailable([t]) <==> t.event == ObsUnavailable
  {
    assert t in [t];
  }

  /** From where it waits, a close is confirmed exactly if it ends OK and was available throughout. */
  lemma {:induction false} WaitIsConfirmed(c: Config, h: Host, moments: seq<Moment>)
    requires Waits(c, h) && AmbientOnly(moments)
    ensures Confirmed(c, WaitSteps(c, h, moments))
      <==> (UntilSettled(c, h, moments).completion == Done(Ok) && h.fsm.state != Unreachable
            && !WentUnavailable(WaitSteps(c, h, moments)))
    decreases |moments|
  {
    if moments != [] {
      var m := moments[0];
      var next := Offered(c, h, m);
      assert m in moments && forall x :: x in moments[1..] ==> x in moments;
      if Enabled(h, m) { WaitingMoment(c, h, m); }
      ConfirmedConcat(c, StepsOf(c, h, m), WaitSteps(c, next, moments[1..]));
      hide Confirmed, WentUnavailable, Enabled, Apply;
      if next.completion == Pending {
        WaitIsConfirmed(c, next, moments[1..]);
      }
    }
  }

  // ---------- A whole attempt

  lemma CloseCommandStep(c: Config, f: Fsm)
    requires (!c.hasFlowMeter ==> f.state !in {OpenVerified, Closed}) && f.state != Maintenance
    ensures var (f', t) := Step(c, f, CmdClose);
      && !Confirms(c, t) && t.failure.None? && t.event == CmdClose
      && (f'.state == Idle <==> f.state == Idle)
      && (f.state != Idle ==> f'.state in {ReqClose, Closed, Unreachable})
      && (f'.state == Unreachable <==> f.state == Unreachable)
  {
  }

  lemma OffStep(c: Config, f: Fsm)
    requires f.state in {ReqClose, Closed, Unreachable}
    ensures var (f', t) := Step(c, f, ObsSwitchOff);
      && t.failure.None? && t.event == ObsSwitchOff
      && (Confirms(c, t) <==> f'.state == Idle)
      && (f'.state != Idle ==> f'.state in {ReqClose, Closed, Unreachable})
      && (f'.state == Unreachable <==> f.state == Unreachable)
  {
  }

  /** One dispatch, of an event that records no failure, while a close is pending. */
  lemma QuietDispatch(c: Config, h: Host, e: Event, env: Env)
    requires h.completion == Pending && h.expected == Terminals(c, CloseValve)
    requires Step(c, h.fsm, e).1.failure.None? && Step(c, h.fsm, e).0.state != Maintenance
    ensures var after := Dispatch(c, h, e, env);
      && after.fsm == Step(c, h.fsm, e).0 && after.expected == h.expected
      && after.completion == if after.fsm.state == Idle then Done(Ok) else Pending
  {
    hide Execute, Guard;
    StepReaches(c, h.fsm, e);
    hide Step;
  }

  lemma StepReaches(c: Config, f: Fsm, e: Event)
    ensures Step(c, f, e).1.toState == Step(c, f, e).0.state
  {
  }

  lemma BeginIsConfirmed(c: Config, h: Host, levelMatches: bool, env: Env)
    requires WellTimed(c, h) && h.fsm.state != Maintenance
    ensures var begun := Begin(c, h, CloseValve, levelMatches, env);
      var steps := BeginSteps(c, h, CloseValve, levelMatches, env);
      && !WentUnavailable(steps)
      && (if begun.completion == Pending
          then Waits(c, begun) && !Confirmed(c, steps) && h.fsm.state != Idle
               && (begun.fsm.state == Unreachable <==> h.fsm.state == Unreachable)
          else begun.completion == Done(Ok) && (Confirmed(c, steps) <==> h.fsm.state !in {Idle, Unreachable}))
  {
    BeginKeepsTimers(c, h, CloseValve, levelMatches, env);
    var h' := h.(expected := Terminals(c, CloseValve), completion := Pending);
    var started := Dispatch(c, h', CmdClose, env);
    CloseCommandStep(c, h.fsm);
    QuietDispatch(c, h', CmdClose, env);
    var first := Step(c, h.fsm, CmdClose).1;
    OneStep(c, first);
    hide Step, Dispatch, Confirms;
    if started.completion == Pending && levelMatches {
      OffStep(c, started.fsm);
      QuietDispatch(c, started, ObsSwitchOff, env);
      var second := Step(c, started.fsm, ObsSwitchOff).1;
      OneStep(c, second);
      ConfirmedConcat(c, [first], [second]);
    } else {
      assert [first] + [] == [first];
    }
  }

  /**
   An attempt to close is confirmed exactly if it ends OK, began with the valve neither idle nor
   unreachable, and never lost it.
   */
  lemma AttemptIsConfirmed(c: Config, h: Host, cycle: Cycle)
    requires WellTimed(c, h) && h.fsm.state != Maintenance && AmbientOnly(cycle.during)
    ensures var steps := AttemptSteps(c, h, CloseValve, cycle);
      Confirmed(c, steps)
      <==> (Attempted(c, h, CloseValve, cycle).completion == Done(Ok) && h.fsm.state !in {Idle, Unreachable}
            && !WentUnavailable(steps))
  {
    var begun := Begin(c, h, CloseValve, cycle.levelMatches, cycle.env);
    BeginIsConfirmed(c, h, cycle.levelMatches, cycle.env);
    var first, rest := BeginSteps(c, h, CloseValve, cycle.levelMatches, cycle.env), WaitSteps(c, begun, cycle.during);
    ConfirmedConcat(c, first, rest);
    if begun.completion == Pending {
      hide Begin, BeginSteps, Confirmed, WentUnavailable, Waits, WaitSteps, UntilSettled;
      WaitIsConfirmed(c, begun, cycle.during);
    } else {
      hide Begin, BeginSteps;
      assert rest == [];
    }
  }

  // ---------- A whole command

  lemma BackoffMoment(c: Config, h: Host, m: Moment)
    requires h.fsm.state in {Idle, Unreachable}
    ensures !Confirmed(c, StepsOf(c, h, m))
  {
  }

  lemma {:induction false} BackoffConfirmsNothing(c: Config, h: Host, moments: seq<Moment>)
    requires WellTimed(c, h) && h.fsm.state in {Idle, Unreachable} && h.completion != Pending && AmbientOnly(moments)
    ensures !Confirmed(c, StepsOfAll(c, h, moments))
    decreases |moments|
  {
    if moments != [] {
      var m := moments[0];
      var next := Offered(c, h, m);
      assert m in moments && forall x :: x in moments[1..] ==> x in moments;
      BackoffMoment(c, h, m);
      if Enabled(h, m) { BackoffIsQuiet(c, h, m); }
      ConfirmedConcat(c, StepsOf(c, h, m), StepsOfAll(c, next, moments[1..]));
      hide WellTimed, Enabled, Apply, StepsOf, Confirmed;
      BackoffConfirmsNothing(c, next, moments[1..]);
    }
  }

  lemma {:induction false} UsedAtLeast(c: Config, h: Host, cmd: Command, cycles: seq<Cycle>, maxRetries: nat,
                                       retries: nat)
    requires retries <= maxRetries < |cycles|
    ensures Retried(c, h, cmd, cycles, maxRetries, retries).2 >= retries
    decreases maxRetries - retries
  {
    var after := Attempted(c, h, cmd, cycles[retries]);
    if after.completion.Done? && IsRetryable(after.completion.result) && retries < maxRetries {
      hide Attempted, OfferedAll;
      UsedAtLeast(c, OfferedAll(c, after, cycles[retries].backoff), cmd, cycles, maxRetries, retries + 1);
    }
  }

  lemma {:induction false} RetriesAreConfirmed(c: Config, h: Host, cycles: seq<Cycle>, maxRetries: nat, retries: nat)
    requires c.maxConsecutiveFailures > 0 && WellTimed(c, h) && LockedAtMaximum(c, h.fsm)
    requires h.fsm.state != Maintenance && AllAmbient(cycles) && retries <= maxRetries < |cycles|
    ensures var outcome := Retried(c, h, CloseValve, cycles, maxRetries, retries);
      var steps := RetriedSteps(c, h, CloseValve, cycles, maxRetries, retries);
      Confirmed(c, steps)
      <==> (outcome.1 == Finished(Ok) && outcome.2 == retries && h.fsm.state !in {Idle, Unreachable}
            && !WentUnavailable(steps))
    decreases maxRetries - retries
  {
    var cycle := cycles[retries];
    var after := Attempted(c, h, CloseValve, cycle);
    AttemptKeepsCycle(c, h, CloseValve, cycle);
    AttemptIsConfirmed(c, h, cycle);
    var attempt := AttemptSteps(c, h, CloseValve, cycle);
    if after.completion.Done? && IsRetryable(after.completion.result) && retries < maxRetries {
      var next := OfferedAll(c, after, cycle.backoff);
      BackoffKeepsCounter(c, after, cycle.backoff);
      BackoffConfirmsNothing(c, after, cycle.backoff);
      hide Attempted, AttemptSteps, OfferedAll, StepsOfAll, WellTimed, Confirmed, WentUnavailable;
      RetriesAreConfirmed(c, next, cycles, maxRetries, retries + 1);
      UsedAtLeast(c, next, CloseValve, cycles, maxRetries, retries + 1);
      var waited := StepsOfAll(c, after, cycle.backoff);
      var rest := RetriedSteps(c, next, CloseValve, cycles, maxRetries, retries + 1);
      ConfirmedConcat(c, waited, rest);
      ConfirmedConcat(c, attempt, waited + rest);
    } else {
      assert attempt + [] == attempt;
    }
  }

  /**
   The OK of a close command is backed by a confirmation exactly if its first attempt brought it,
   the command found the valve neither idle nor unreachable, and the valve was never lost on the
   way. Every other OK is handed back unconfirmed.
   */
  lemma CloseIsConfirmed(c: Config, h: Host, readable: bool, cycles: seq<Cycle>, maxRetries: nat)
    requires c.maxConsecutiveFailures > 0 && WellTimed(c, h) && LockedAtMaximum(c, h.fsm)
    requires maxRetries < |cycles| && AllAmbient(cycles)
    ensures var outcome := Commanded(c, h, CloseValve, readable, cycles, maxRetries);
      var steps := CommandedSteps(c, h, CloseValve, readable, cycles, maxRetries);
      Confirmed(c, steps)
      <==> (outcome.1 == Finished(Ok) && outcome.2 == 0 && h.fsm.state !in {Idle, Unreachable}
            && !WentUnavailable(steps))
  {
    if h.fsm.state != Maintenance && readable {
      hide WellTimed, Confirmed, WentUnavailable, Retried, RetriedSteps;
      RetriesAreConfirmed(c, h, cycles, maxRetries, 0);
    }
  }

  /** So an OK that took a retry is never a confirmed close. */
  lemma RetriedCloseIsUnconfirmed(c: Config, h: Host, readable: bool, cycles: seq<Cycle>, maxRetries: nat)
    requires c.maxConsecutiveFailures > 0 && WellTimed(c, h) && LockedAtMaximum(c, h.fsm)
    requires maxRetries < |cycles| && AllAmbient(cycles)
    requires Commanded(c, h, CloseValve, readable, cycles, maxRetries).2 > 0
    ensures !Confirmed(c, CommandedSteps(c, h, CloseValve, readable, cycles, maxRetries))
  {
    hide Commanded, CommandedSteps, Confirmed;
    CloseIsConfirmed(c, h, readable, cycles, maxRetries);
  }

  // ---------- Such an OK

  /** An attempt to close a valve that never answers. */
  function DeafClose(env: Env): Cycle {
    Cycle(env, false, [Moment(Expire(CloseTimer), env)], [])
  }

  lemma BeginningToClose(c: Config, h: Host, env: Env)
    requires h.fsm.state in {ReqOpen, Open, OpenVerified, ReqClose}
    ensures var begun := Begin(c, h, CloseValve, false, env);
      begun.fsm == h.fsm.(state := ReqClose) && begun.completion == Pending
  {
    hide Execute, Guard;
  }

  lemma DeafCloseFails(c: Config, h: Host, env: Env)
    requires TimersFit(c, h) && h.fsm.state in {ReqOpen, Open, OpenVerified, ReqClose}
    requires h.fsm.failureCount + 1 < c.maxConsecutiveFailures
    ensures var after := Attempted(c, h, CloseValve, DeafClose(env));
      after.completion == Done(FailedWith(CloseVerificationFailed)) && after.fsm.state == Idle
  {
    var begun := Begin(c, h, CloseValve, false, env);
    var m := Moment(Expire(CloseTimer), env);
    BeginKeepsTimers(c, h, CloseValve, false, env);
    BeginningToClose(c, h, env);
    hide Begin, Execute, Guard, TimersFit;
    CloseTimesOut(c, begun, env);
    assert [m][1..] == [];
    assert UntilSettled(c, begun, [m]) == Offered(c, begun, m);
  }

  /** Whenever its counter leaves room for one failure, a valve that never answers a close is reported closed. */
  lemma DeafCloseReportsOk(c: Config, h: Host, env: Env, cycles: seq<Cycle>, maxRetries: nat)
    requires TimersFit(c, h) && h.fsm.state in {ReqOpen, Open, OpenVerified, ReqClose}
    requires h.fsm.failureCount + 1 < c.maxConsecutiveFailures
    requires 0 < maxRetries < |cycles| && cycles[0] == DeafClose(env)
    ensures var outcome := Commanded(c, h, CloseValve, true, cycles, maxRetries);
      outcome.1 == Finished(Ok) && outcome.2 == 1
  {
    var after := Attempted(c, h, CloseValve, DeafClose(env));
    DeafCloseFails(c, h, env);
    assert OfferedAll(c, after, DeafClose(env).backoff) == after;
    IdleCloseIsOk(c, after, cycles[1]);
    hide Attempted, OfferedAll, DeafClose, TimersFit;
    assert Retried(c, after, CloseValve, cycles, maxRetries, 1).1 == Finished(Ok);
  }

  lemma IdleCloseIsOk(c: Config, h: Host, cycle: Cycle)
    requires h.fsm.state == Idle
    ensures Attempted(c, h, CloseValve, cycle).completion == Done(Ok)
  {
    CloseFromIdleReportsOk(c, h, cycle.levelMatches, cycle.env);
    hide Begin;
  }
}
