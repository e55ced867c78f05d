/**
 A command with its retries, as a function of the surroundings: what each attempt meets, what
 settles it, and what is waited out before the next one. The laws of the retry budget are proved
 on this function; the driver's loop is proved to compute it.
 */
module CommandRuns {
  import opened Wrappers
  import opened ValveFsm
  import opened DriverSteps

  /** The surroundings of one attempt: its start, what happens during it, and during its backoff. */
  datatype Cycle = Cycle(env: Env, levelMatches: bool, during: seq<Moment>, backoff: seq<Moment>)

  /** Refused before any attempt, finished, or still waiting when the surroundings run out. */
  datatype CommandResult = InMaintenance | PrecheckFailed | Finished(result: Result) | Waiting

  /** What a running command can meet: neither another command nor its own cancellation. */
  ghost predicate AmbientOnly(moments: seq<Moment>) {
    forall m :: m in moments ==> m.input.Notice? || m.input.Expire? || m.input.WatchdogFires?
  }

  ghost predicate AllAmbient(cycles: seq<Cycle>) {
    forall i :: 0 <= i < |cycles| ==> AmbientOnly(cycles[i].during) && AmbientOnly(cycles[i].backoff)
  }

  /** What the surroundings bring is taken unless it has become impossible. */
  function Offered(c: Config, h: Host, m: Moment): Host {
    if Enabled(h, m) then Apply(c, h, m) else h
  }

  function OfferedAll(c: Config, h: Host, moments: seq<Moment>): Host
    decreases |moments|
  {
    if moments == [] then h else OfferedAll(c, Offered(c, h, moments[0]), moments[1..])
  }

  /** The same, until the future is settled. */
  function UntilSettled(c: Config, h: Host, moments: seq<Moment>): Host
    decreases |moments|
  {
    if moments == [] || h.completion != Pending then h else UntilSettled(c, Offered(c, h, moments[0]), moments[1..])
  }

  function Attempted(c: Config, h: Host, cmd: Command, cycle: Cycle): Host {
    UntilSettled(c, Begin(c, h, cmd, cycle.levelMatches, cycle.env), cycle.during)
  }

  /** The host, the result and the retries used, from attempt number `retries` on. */
  function Retried(c: Config, h: Host, cmd: Command, cycles: seq<Cycle>, maxRetries: nat, retries: nat)
    : (Host, CommandResult, nat)
    requires retries <= maxRetries < |cycles|
    decreases maxRetries - retries
  {
    var after := Attempted(c, h, cmd, cycles[retries]);
    if !after.completion.Done? then (after, Waiting, retries)
    else if !IsRetryable(after.completion.result) || retries >= maxRetries then
      (after, Finished(after.completion.result), retries)
    else
      Retried(c, OfferedAll(c, after, cycles[retries].backoff), cmd, cycles, maxRetries, retries + 1)
  }

  /** `readable`: the entity exists and answers, as far as the installation can tell. */
  function Commanded(c: Config, h: Host, cmd: Command, readable: bool, cycles: seq<Cycle>, maxRetries: nat)
    : (Host, CommandResult, nat)
    requires maxRetries < |cycles|
  {
    if h.fsm.state == Maintenance then (h, InMaintenance, 0)
    else if !readable then (h, PrecheckFailed, 0)
    else Retried(c, h, cmd, cycles, maxRetries, 0)
  }

  // ---------- The budget

  lemma ExpectationStays(c: Config, h: Host, m: Moment)
    requires m.input.Notice? || m.input.Expire? || m.input.WatchdogFires?
    ensures Offered(c, h, m).expected == h.expected
  {
    hide Step;
  }

  lemma {:induction false} WaitKeepsCycle(c: Config, h: Host, moments: seq<Moment>, n: nat)
    requires c.maxConsecutiveFailures > 0 && InCycle(c, h, n) && AmbientOnly(moments)
    ensures InCycle(c, UntilSettled(c, h, moments), n)
    ensures UntilSettled(c, h, moments).expected == h.expected
    decreases |moments|
  {
    if moments != [] && h.completion == Pending {
      var m := moments[0];
      assert m in moments && forall x :: x in moments[1..] ==> x in moments;
      if Enabled(h, m) { CycleContinues(c, h, m, n); }
      ExpectationStays(c, h, m);
      hide InCycle, Enabled, Apply;
      WaitKeepsCycle(c, Offered(c, h, m), moments[1..], n);
    }
  }

  lemma BeginExpects(c: Config, h: Host, cmd: Command, levelMatches: bool, env: Env)
    ensures Begin(c, h, cmd, levelMatches, env).expected == Terminals(c, cmd)
  {
    hide Step, Settle, Guard;
  }

  lemma AttemptKeepsCycle(c: Config, h: Host, cmd: Command, cycle: Cycle)
    requires c.maxConsecutiveFailures > 0 && WellTimed(c, h) && LockedAtMaximum(c, h.fsm)
    requires h.fsm.state != Maintenance && AmbientOnly(cycle.during)
    ensures InCycle(c, Attempted(c, h, cmd, cycle), h.fsm.failureCount)
    ensures Attempted(c, h, cmd, cycle).expected == Terminals(c, cmd)
  {
    CycleBegins(c, h, cmd, cycle.levelMatches, cycle.env);
    BeginExpects(c, h, cmd, cycle.levelMatches, cycle.env);
    hide InCycle, Begin, UntilSettled;
    WaitKeepsCycle(c, Begin(c, h, cmd, cycle.levelMatches, cycle.env), cycle.during, h.fsm.failureCount);
  }

  /** Waiting out a backoff leaves the counter where the failed attempt put it. */
  lemma {:induction false} BackoffKeepsCounter(c: Config, h: Host, moments: seq<Moment>)
    requires WellTimed(c, h) && h.fsm.state in {Idle, Unreachable} && h.completion != Pending && AmbientOnly(moments)
    ensures var after := OfferedAll(c, h, moments);
      && WellTimed(c, after) && after.fsm.state in {Idle, Unreachable}
      && after.fsm.failureCount == h.fsm.failureCount && after.completion != Pending
    decreases |moments|
  {
    if moments != [] {
      var m := moments[0];
      assert m in moments && forall x :: x in moments[1..] ==> x in moments;
      if Enabled(h, m) { BackoffIsQuiet(c, h, m); }
      hide WellTimed, Enabled, Apply;
      BackoffKeepsCounter(c, Offered(c, h, m), moments[1..]);
    }
  }

  /** What holds when attempt number `retries` of a command that found the counter at `n` is over. */
  ghost predicate Budgeted(c: Config, cmd: Command, maxRetries: nat, n: nat, outcome: (Host, CommandResult, nat)) {
    var (after, r, used) := outcome;
    && WellTimed(c, after) && LockedAtMaximum(c, after.fsm)
    && used <= maxRetries
    && r != InMaintenance && r != PrecheckFailed
    && (r == Waiting <==> after.completion == Pending)
    && (r == Finished(Ok) ==> after.fsm.state in Terminals(c, cmd))
    && (r.Finished? && r.result.FailedWith? ==>
          && after.fsm.state == Idle && after.fsm.failureCount == n + used + 1
          && (used == maxRetries || !IsRetryable(r.result)))
    && (r.Finished? && r.result.Locked? ==>
          after.fsm.state == Maintenance && after.fsm.failureCount == n + used + 1 == c.maxConsecutiveFailures)
  }

  lemma {:induction false} RetriesAreBudgeted(c: Config, h: Host, cmd: Command, cycles: seq<Cycle>, maxRetries: nat,
                                              retries: nat, n: nat)
    requires c.maxConsecutiveFailures > 0 && WellTimed(c, h) && LockedAtMaximum(c, h.fsm)
    requires h.fsm.state != Maintenance && AllAmbient(cycles)
    requires retries <= maxRetries < |cycles| && h.fsm.failureCount == n + retries
    ensures Budgeted(c, cmd, maxRetries, n, Retried(c, h, cmd, cycles, maxRetries, retries))
    decreases maxRetries - retries
  {
    AttemptKeepsCycle(c, h, cmd, cycles[retries]);
    var after := Attempted(c, h, cmd, cycles[retries]);
    hide Attempted, WellTimed;
    if after.completion.Done? && IsRetryable(after.completion.result) && retries < maxRetries {
      BackoffKeepsCounter(c, after, cycles[retries].backoff);
      RetriesAreBudgeted(c, OfferedAll(c, after, cycles[retries].backoff), cmd, cycles, maxRetries, retries + 1, n);
    }
  }

  /**
   A command, against arbitrary surroundings for each attempt, ends within `maxRetries + 1`
   attempts. Every failed attempt has moved the counter by one; the valve is locked only by the
   attempt that takes the counter from where the command found it to the maximum; a failure is
   handed back only when it is not transient or the budget is spent; and OK only in a state the
   command was waiting for.
   */
  lemma CommandIsBudgeted(c: Config, h: Host, cmd: Command, readable: bool, cycles: seq<Cycle>, maxRetries: nat)
    requires c.maxConsecutiveFailures > 0 && WellTimed(c, h) && LockedAtMaximum(c, h.fsm)
    requires maxRetries < |cycles| && AllAmbient(cycles)
    ensures var outcome := Commanded(c, h, cmd, readable, cycles, maxRetries);
      && (outcome.1 == InMaintenance <==> h.fsm.state == Maintenance)
      && (outcome.1 == PrecheckFailed <==> h.fsm.state != Maintenance && !readable)
      && (h.fsm.state == Maintenance || !readable ==> outcome.0 == h)
      && (h.fsm.state != Maintenance && readable ==> Budgeted(c, cmd, maxRetries, h.fsm.failureCount, outcome))
  {
    if h.fsm.state != Maintenance && readable {
      RetriesAreBudgeted(c, h, cmd, cycles, maxRetries, 0, h.fsm.failureCount);
    }
  }

  /**
   Under the default configuration, where the maximum is one more than the retries, a command that
   locks the valve does so on its last attempt exactly when it found the counter at zero; a counter
   above zero locks it that many attempts earlier, in the middle of the command's budget.
   */
  lemma LocksOnLastAttemptFromZero(c: Config, h: Host, cmd: Command, readable: bool, cycles: seq<Cycle>,
                                   maxRetries: nat)
    requires c.maxConsecutiveFailures == maxRetries + 1 && WellTimed(c, h) && LockedAtMaximum(c, h.fsm)
    requires maxRetries < |cycles| && AllAmbient(cycles)
    ensures var outcome := Commanded(c, h, cmd, readable, cycles, maxRetries);
      outcome.1.Finished? && outcome.1.result.Locked? ==>
        && outcome.2 == maxRetries - h.fsm.failureCount
        && (outcome.2 == maxRetries <==> h.fsm.failureCount == 0)
  {
    hide Commanded, WellTimed;
    CommandIsBudgeted(c, h, cmd, readable, cycles, maxRetries);
  }

  // ---------- The budget is really spent

  /** An attempt to open a valve that never answers. */
  function Deaf(env: Env): Cycle {
    Cycle(env, false, [Moment(Expire(OpenTimer), env)], [])
  }

  lemma DeafAttempt(c: Config, h: Host, env: Env)
    requires TimersFit(c, h) && h.fsm.state == Idle && h.fsm.failureCount < c.maxConsecutiveFailures
    ensures var after := Attempted(c, h, OpenValve, Deaf(env));
      var locks := h.fsm.failureCount + 1 == c.maxConsecutiveFailures;
      && TimersFit(c, after)
      && after.fsm == Fsm(if locks then Maintenance else Idle, h.fsm.failureCount + 1, Some(OpenFailed))
      && after.completion == Done(if locks then Locked(Some(OpenFailed)) else FailedWith(OpenFailed))
  {
    var begun := Begin(c, h, OpenValve, false, env);
    BeginKeepsTimers(c, h, OpenValve, false, env);
    BeginningToOpen(c, h, env);
    assert OpenTimer in DriverSteps.Awaited(c, ReqOpen);
    assert begun.timers[OpenTimer] in Expiries(OpenTimer);
    var m := Moment(Expire(OpenTimer), env);
    hide Execute, Begin, Guard;
    MomentKeepsTimers(c, begun, m);
    assert [m][1..] == [];
    assert UntilSettled(c, begun, [m]) == Offered(c, begun, m);
  }

  lemma BeginningToOpen(c: Config, h: Host, env: Env)
    requires h.fsm.state == Idle
    ensures var begun := Begin(c, h, OpenValve, false, env);
      begun.fsm == h.fsm.(state := ReqOpen) && begun.completion == Pending
  {
    hide Execute;
  }

  /** What the loop makes of an attempt that met silence. */
  lemma RetryAfterDeaf(c: Config, h: Host, env: Env, cycles: seq<Cycle>, maxRetries: nat, retries: nat)
    requires retries <= maxRetries < |cycles| && cycles[retries] == Deaf(env)
    ensures var after := Attempted(c, h, OpenValve, Deaf(env));
      && (after.completion == Done(FailedWith(OpenFailed)) && retries < maxRetries ==>
            Retried(c, h, OpenValve, cycles, maxRetries, retries)
              == Retried(c, after, OpenValve, cycles, maxRetries, retries + 1))
      && (after.completion == Done(Locked(Some(OpenFailed))) ==>
            Retried(c, h, OpenValve, cycles, maxRetries, retries)
              == (after, Finished(Locked(Some(OpenFailed))), retries))
  {
    var after := Attempted(c, h, OpenValve, Deaf(env));
    assert OfferedAll(c, after, Deaf(env).backoff) == after;
    hide Attempted, OfferedAll, Deaf;
  }

  /**
   A valve that never answers is locked on exactly the attempt its counter leaves room for: with
   the default maximum, on the last when the command found it at zero, and before it otherwise.
   */
  lemma {:induction false} DeafValveLocks(c: Config, h: Host, env: Env, cycles: seq<Cycle>, maxRetries: nat,
                                          retries: nat)
    requires c.maxConsecutiveFailures == maxRetries + 1
    requires TimersFit(c, h) && h.fsm.state == Idle && retries <= h.fsm.failureCount <= maxRetries < |cycles|
    requires forall i :: 0 <= i < |cycles| ==> cycles[i] == Deaf(env)
    ensures var outcome := Retried(c, h, OpenValve, cycles, maxRetries, retries);
      && outcome.1 == Finished(Locked(Some(OpenFailed)))
      && outcome.2 == maxRetries - (h.fsm.failureCount - retries)
    decreases maxRetries - h.fsm.failureCount
  {
    hide *;
    DeafAttempt(c, h, env);
    RetryAfterDeaf(c, h, env, cycles, maxRetries, retries);
    if h.fsm.failureCount < maxRetries {
      DeafValveLocks(c, Attempted(c, h, OpenValve, Deaf(env)), env, cycles, maxRetries, retries + 1);
    }
  }

  // ---------- An open that waits for ever

  /** An open whose valve was lost, or shut by somebody else, before it was verified. */
  ghost predicate OpenAdrift(c: Config, h: Host) {
    && WellTimed(c, h) && h.completion == Pending && h.expected == Terminals(c, OpenValve)
    && h.fsm.state in {Idle, Unreachable}
  }

  lemma AdriftStaysAdrift(c: Config, h: Host, m: Moment)
    requires OpenAdrift(c, h) && Enabled(h, m)
    requires m.input.Notice? || m.input.Expire? || m.input.WatchdogFires?
    ensures OpenAdrift(c, Apply(c, h, m)) && Apply(c, h, m).sent == h.sent
  {
    MomentKeepsTimers(c, h, m);
    if m.input.Notice? { DispatchSends(c, h, m.input.event, m.env); }
    hide Execute;
  }

  /** No run of observations, expiries and watchdogs ever settles it, or tells the actuator anything. */
  lemma {:induction false} AdriftWaitsForever(c: Config, h: Host, moments: seq<Moment>)
    requires OpenAdrift(c, h) && AmbientOnly(moments)
    ensures OpenAdrift(c, UntilSettled(c, h, moments)) && UntilSettled(c, h, moments).sent == h.sent
    decreases |moments|
  {
    if moments != [] {
      var m := moments[0];
      assert m in moments && forall x :: x in moments[1..] ==> x in moments;
      if Enabled(h, m) { AdriftStaysAdrift(c, h, m); }
      hide WellTimed, Enabled, Apply;
      AdriftWaitsForever(c, Offered(c, h, m), moments[1..]);
    }
  }

  lemma DerailingSetsAdrift(c: Config, h: Host, m: Moment)
    requires WellTimed(c, h) && OnTrack(c, h) && Enabled(h, m) && h.expected == Terminals(c, OpenValve)
    requires m.input.Notice? && Derails(c, h, m.input)
    ensures OpenAdrift(c, Apply(c, h, m))
  {
    MomentKeepsTimers(c, h, m);
    TerminalsDiffer(c);
    hide Execute, Guard, WellTimed;
  }

  /**
   So an open that meets one of the two transitions that derail it is never settled, whatever comes
   after: its caller waits for ever, and with it every command behind it.
   */
  lemma DerailedOpenWaitsForever(c: Config, h: Host, m: Moment, moments: seq<Moment>)
    requires WellTimed(c, h) && OnTrack(c, h) && Enabled(h, m) && h.expected == Terminals(c, OpenValve)
    requires m.input.Notice? && Derails(c, h, m.input) && AmbientOnly(moments)
    ensures UntilSettled(c, Apply(c, h, m), moments).completion == Pending
  {
    DerailingSetsAdrift(c, h, m);
    AdriftWaitsForever(c, Apply(c, h, m), moments);
  }

  // ---------- What each silence is taken for

  /** An attempt that meets an observation, then the expiry of a timer. */
  function Then(env: Env, e: Event, seen: Env, timer: Timer, expired: Env): Cycle {
    Cycle(env, false, [Moment(Notice(e), seen), Moment(Expire(timer), expired)], [])
  }

  lemma TwoMoments(c: Config, h: Host, first: Moment, second: Moment)
    requires h.completion == Pending && Enabled(h, first)
    requires Apply(c, h, first).completion == Pending && Enabled(Apply(c, h, first), second)
    ensures UntilSettled(c, h, [first, second]) == Apply(c, Apply(c, h, first), second)
  {
    hide Apply, Enabled;
    assert [first, second][1..] == [second] && [second][1..] == [];
    var h1 := Apply(c, h, first);
    assert UntilSettled(c, h1, [second]) == UntilSettled(c, Apply(c, h1, second), []);
  }

  /** The switch seen on, with a meter: the flow timer runs, for what the surroundings say of flow then. */
  lemma SwitchSeenOn(c: Config, h: Host, env: Env, seen: Env)
    requires c.hasFlowMeter && TimersFit(c, h) && h.fsm.state == Idle
    ensures var begun := Begin(c, h, OpenValve, false, env);
      var on := Apply(c, begun, Moment(Notice(ObsSwitchOn), seen));
      && begun.completion == Pending && WellTimed(c, begun)
      && on.fsm == h.fsm.(state := Open) && on.completion == Pending && on.expected == {OpenVerified}
      && on.timers == map[FlowTimer := if seen.flowHopeless then FlowUnverifiable else TimeoutFlow]
      && on.sent == h.sent + [true]
  {
    BeginKeepsTimers(c, h, OpenValve, false, env);
    var begun := Begin(c, h, OpenValve, false, env);
    BeginningToOpen(c, h, env);
    CommandSends(c, h, OpenValve, false, env);
    DispatchSends(c, begun, ObsSwitchOn, seen);
    assert begun.timers.Keys == {OpenTimer};
    hide Begin;
    var actions := Step(c, begun.fsm, ObsSwitchOn).1.actions;
    assert actions == [CancelTimer(OpenTimer), StartTimer(FlowTimer)];
    ExecuteTwo(begun.(fsm := begun.fsm.(state := Open)), actions[0], actions[1], seen);
    assert begun.timers - {OpenTimer} == map[];
    BeginExpects(c, h, OpenValve, false, env);
  }

  lemma ExecuteTwo(h: Host, first: Action, second: Action, env: Env)
    ensures Execute(h, [first, second], env) == ExecuteOne(ExecuteOne(h, first, env), second, env)
  {
    hide ExecuteOne;
    assert [first, second][..1] == [first] && [first][..0] == [];
    assert Execute(h, [first], env) == ExecuteOne(h, first, env);
  }

  /** The settled host of a command whose only attempt is settled for good. */
  lemma OneAttempt(c: Config, h: Host, cmd: Command, cycles: seq<Cycle>, maxRetries: nat)
    requires maxRetries < |cycles| && h.fsm.state != Maintenance
    requires Attempted(c, h, cmd, cycles[0]).completion.Done?
    requires !IsRetryable(Attempted(c, h, cmd, cycles[0]).completion.result)
    ensures var after := Attempted(c, h, cmd, cycles[0]);
      Commanded(c, h, cmd, true, cycles, maxRetries) == (after, Finished(after.completion.result), 0)
  {
    hide Attempted, OfferedAll;
  }

  /** What a failure of a command leaves: the counter up by one, and the valve locked if that is the maximum. */
  function FailedAs(c: Config, f: Fsm, kind: Failure): (Fsm, Result) {
    var n := f.failureCount + 1;
    if n == c.maxConsecutiveFailures then (Fsm(Maintenance, n, Some(kind)), Locked(Some(kind)))
    else (Fsm(Idle, n, Some(kind)), FailedWith(kind))
  }

  lemma FailureKeepsState(c: Config, f: Fsm, s: State, kind: Failure)
    ensures FailedAs(c, f.(state := s), kind) == FailedAs(c, f, kind)
  {
  }

  lemma ObservedFromOutside(h: Host, env: Env)
    ensures External(ObsSwitchOn) && Enabled(h, Moment(Notice(ObsSwitchOn), env))
    ensures External(ObsSwitchOff) && Enabled(h, Moment(Notice(ObsSwitchOff), env))
  {
  }

  lemma FlowExpires(c: Config, on: Host, expired: Env)
    requires c.hasFlowMeter && on.fsm.state == Open && on.completion == Pending && on.expected == {OpenVerified}
    requires on.fsm.failureCount < c.maxConsecutiveFailures
    requires FlowTimer in on.timers && on.timers[FlowTimer] in {TimeoutFlow, FlowUnverifiable}
    ensures var after := Apply(c, on, Moment(Expire(FlowTimer), expired));
      if on.timers[FlowTimer] == TimeoutFlow
      then (after.fsm, after.completion.result) == FailedAs(c, on.fsm, ActuationFailed)
           && after.completion.Done? && after.sent == on.sent + [false]
      else after.fsm == on.fsm.(state := OpenVerified) && after.completion == Done(Ok) && after.sent == on.sent
  {
    DispatchSends(c, on.(timers := on.timers - {FlowTimer}), on.timers[FlowTimer], expired);
    hide Execute, Guard;
  }

  /** An attempt of two moments, when neither the start nor the first of them settles it. */
  lemma AttemptOfTwo(c: Config, h: Host, cmd: Command, e: Event, timer: Timer, env: Env, seen: Env, expired: Env)
    requires External(e)
    requires var begun := Begin(c, h, cmd, false, env);
      var h1 := Apply(c, begun, Moment(Notice(e), seen));
      begun.completion == Pending && h1.completion == Pending && timer in h1.timers
    ensures Attempted(c, h, cmd, Then(env, e, seen, timer, expired))
         == Apply(c, Apply(c, Begin(c, h, cmd, false, env), Moment(Notice(e), seen)), Moment(Expire(timer), expired))
  {
    hide Begin, Dispatch, UntilSettled;
    TwoMoments(c, Begin(c, h, cmd, false, env), Moment(Notice(e), seen), Moment(Expire(timer), expired));
  }

  lemma StillAttempt(c: Config, h: Host, env: Env, seen: Env, expired: Env)
    requires c.hasFlowMeter && TimersFit(c, h) && h.fsm.state == Idle && h.fsm.failureCount < c.maxConsecutiveFailures
    ensures var after := Attempted(c, h, OpenValve, Then(env, ObsSwitchOn, seen, FlowTimer, expired));
      && after.completion.Done?
      && if seen.flowHopeless
         then after.completion == Done(Ok) && after.fsm == h.fsm.(state := OpenVerified)
              && after.sent == h.sent + [true]
         else (after.fsm, after.completion.result) == FailedAs(c, h.fsm, ActuationFailed)
              && after.sent == h.sent + [true, false]
  {
    hide *;
    ObservedFromOutside(Begin(c, h, OpenValve, false, env), seen);
    SwitchSeenOn(c, h, env, seen);
    AttemptOfTwo(c, h, OpenValve, ObsSwitchOn, FlowTimer, env, seen, expired);
    FailureKeepsState(c, h.fsm, Open, ActuationFailed);
    FlowExpires(c, Apply(c, Begin(c, h, OpenValve, false, env), Moment(Notice(ObsSwitchOn), seen)), expired);
    assert h.sent + [true] + [false] == h.sent + [true, false];
  }

  /**
   A metered valve whose switch is seen on while its meter stays still: where flow could have been
   verified the open fails for good, without a retry, and the valve is told to shut; where it could
   not, the open is OK and the valve is left alone.
   */
  lemma StillMeter(c: Config, h: Host, cycles: seq<Cycle>, maxRetries: nat, env: Env, seen: Env, expired: Env)
    requires c.hasFlowMeter && TimersFit(c, h) && h.fsm.state == Idle
    requires h.fsm.failureCount < c.maxConsecutiveFailures && maxRetries < |cycles|
    requires cycles[0] == Then(env, ObsSwitchOn, seen, FlowTimer, expired)
    ensures var (after, r, used) := Commanded(c, h, OpenValve, true, cycles, maxRetries);
      && used == 0
      && if seen.flowHopeless
         then r == Finished(Ok) && after.fsm == h.fsm.(state := OpenVerified) && after.sent == h.sent + [true]
         else r.Finished? && (after.fsm, r.result) == FailedAs(c, h.fsm, ActuationFailed)
              && after.sent == h.sent + [true, false]
  {
    hide Attempted, Commanded, TimersFit, Then;
    StillAttempt(c, h, env, seen, expired);
    OneAttempt(c, h, OpenValve, cycles, maxRetries);
  }

  /** The switch seen off, with a meter: the leak timer runs, whatever ran before. */
  lemma SwitchSeenOff(c: Config, h: Host, env: Env, seen: Env)
    requires c.hasFlowMeter && TimersFit(c, h) && h.fsm.state in {ReqOpen, Open, OpenVerified}
    ensures var begun := Begin(c, h, CloseValve, false, env);
      var off := Apply(c, begun, Moment(Notice(ObsSwitchOff), seen));
      && begun.completion == Pending && WellTimed(c, begun)
      && off.fsm == h.fsm.(state := Closed) && off.completion == Pending && off.expected == {Idle}
      && TimersFit(c, off) && off.sent == h.sent + [false]
  {
    BeginKeepsTimers(c, h, CloseValve, false, env);
    var begun := Begin(c, h, CloseValve, false, env);
    BegunClosing(c, h, env);
    CommandSends(c, h, CloseValve, false, env);
    DispatchSends(c, begun, ObsSwitchOff, seen);
    BeginExpects(c, h, CloseValve, false, env);
    hide Begin, Execute, Guard;
    EventKeepsTimers(c, begun, ObsSwitchOff, seen);
  }

  lemma BegunClosing(c: Config, h: Host, env: Env)
    requires h.fsm.state in {ReqOpen, Open, OpenVerified}
    ensures var begun := Begin(c, h, CloseValve, false, env);
      begun.fsm == h.fsm.(state := ReqClose) && begun.completion == Pending
  {
    hide Execute, Guard;
  }

  lemma LeakTimerRuns(c: Config, off: Host)
    requires TimersFit(c, off) && off.fsm.state == Closed
    ensures LeakTimer in off.timers && off.timers[LeakTimer] == TimeoutLeak
  {
    assert LeakTimer in DriverSteps.Awaited(c, Closed);
    assert off.timers[LeakTimer] in Expiries(LeakTimer);
  }

  lemma LeakExpires(c: Config, off: Host, expired: Env)
    requires TimersFit(c, off) && off.fsm.state == Closed && off.completion == Pending
    requires off.fsm.failureCount < c.maxConsecutiveFailures
    ensures LeakTimer in off.timers
    ensures var after := Apply(c, off, Moment(Expire(LeakTimer), expired));
      && after.completion.Done? && (after.fsm, after.completion.result) == FailedAs(c, off.fsm, CloseLeak)
      && after.sent == off.sent
  {
    LeakTimerRuns(c, off);
    hide TimersFit, Execute, Guard;
    DispatchSends(c, off.(timers := off.timers - {LeakTimer}), TimeoutLeak, expired);
  }

  lemma LeakyAttempt(c: Config, h: Host, env: Env, seen: Env, expired: Env)
    requires c.hasFlowMeter && TimersFit(c, h) && h.fsm.state in {ReqOpen, Open, OpenVerified}
    requires h.fsm.failureCount < c.maxConsecutiveFailures
    ensures var after := Attempted(c, h, CloseValve, Then(env, ObsSwitchOff, seen, LeakTimer, expired));
      && after.completion.Done? && (after.fsm, after.completion.result) == FailedAs(c, h.fsm, CloseLeak)
      && after.sent == h.sent + [false]
  {
    hide *;
    ObservedFromOutside(Begin(c, h, CloseValve, false, env), seen);
    SwitchSeenOff(c, h, env, seen);
    FailureKeepsState(c, h.fsm, Closed, CloseLeak);
    LeakExpires(c, Apply(c, Begin(c, h, CloseValve, false, env), Moment(Notice(ObsSwitchOff), seen)), expired);
    AttemptOfTwo(c, h, CloseValve, ObsSwitchOff, LeakTimer, env, seen, expired);
  }

  /** A metered valve seen off whose flow never comes to rest: the close fails as a leak, without a retry. */
  lemma LeakyClose(c: Config, h: Host, cycles: seq<Cycle>, maxRetries: nat, env: Env, seen: Env, expired: Env)
    requires c.hasFlowMeter && TimersFit(c, h) && h.fsm.state in {ReqOpen, Open, OpenVerified}
    requires h.fsm.failureCount < c.maxConsecutiveFailures && maxRetries < |cycles|
    requires cycles[0] == Then(env, ObsSwitchOff, seen, LeakTimer, expired)
    ensures var (after, r, used) := Commanded(c, h, CloseValve, true, cycles, maxRetries);
      && used == 0 && r.Finished? && (after.fsm, r.result) == FailedAs(c, h.fsm, CloseLeak)
      && after.sent == h.sent + [false]
  {
    hide Attempted, Commanded, TimersFit, Then;
    LeakyAttempt(c, h, env, seen, expired);
    OneAttempt(c, h, CloseValve, cycles, maxRetries);
  }

  // ---------- A retry

  lemma SeenOnUnmetered(c: Config, h: Host, env: Env, seen: Env)
    requires !c.hasFlowMeter && TimersFit(c, h) && h.fsm.state == Idle
    ensures var after := Attempted(c, h, OpenValve, Cycle(env, false, [Moment(Notice(ObsSwitchOn), seen)], []));
      after.completion == Done(Ok) && after.fsm == h.fsm.(state := Open) && after.sent == h.sent + [true]
  {
    var begun := Begin(c, h, OpenValve, false, env);
    var m := Moment(Notice(ObsSwitchOn), seen);
    BeginningToOpen(c, h, env);
    CommandSends(c, h, OpenValve, false, env);
    BeginExpects(c, h, OpenValve, false, env);
    DispatchSends(c, begun, ObsSwitchOn, seen);
    hide Begin, Execute, Guard;
    assert [m][1..] == [];
    assert UntilSettled(c, begun, [m]) == Offered(c, begun, m);
  }

  lemma DeafAttemptSends(c: Config, h: Host, env: Env)
    requires TimersFit(c, h) && h.fsm.state == Idle
    ensures Attempted(c, h, OpenValve, Deaf(env)).sent == h.sent + [true]
  {
    var begun := Begin(c, h, OpenValve, false, env);
    BeginKeepsTimers(c, h, OpenValve, false, env);
    BeginningToOpen(c, h, env);
    CommandSends(c, h, OpenValve, false, env);
    assert OpenTimer in DriverSteps.Awaited(c, ReqOpen);
    assert begun.timers[OpenTimer] in Expiries(OpenTimer);
    var m := Moment(Expire(OpenTimer), env);
    DispatchSends(c, begun.(timers := begun.timers - {OpenTimer}), TimeoutOpen, env);
    hide Execute, Begin, Guard;
    assert [m][1..] == [];
    assert UntilSettled(c, begun, [m]) == Offered(c, begun, m);
  }

  /**
   A valve that misses the first command and answers the second is opened by one retry, which tells
   it once more; its failure stays on the counter.
   */
  lemma SecondAttemptOpens(c: Config, h: Host, cycles: seq<Cycle>, maxRetries: nat, env: Env, again: Env, seen: Env)
    requires !c.hasFlowMeter && TimersFit(c, h) && h.fsm.state == Idle
    requires h.fsm.failureCount + 1 < c.maxConsecutiveFailures && 0 < maxRetries < |cycles|
    requires cycles[0] == Deaf(env) && cycles[1] == Cycle(again, false, [Moment(Notice(ObsSwitchOn), seen)], [])
    ensures var (after, r, used) := Commanded(c, h, OpenValve, true, cycles, maxRetries);
      && r == Finished(Ok) && used == 1 && after.fsm == Fsm(Open, h.fsm.failureCount + 1, Some(OpenFailed))
      && after.sent == h.sent + [true, true]
  {
    var failed := Attempted(c, h, OpenValve, Deaf(env));
    DeafAttempt(c, h, env);
    DeafAttemptSends(c, h, env);
    SeenOnUnmetered(c, failed, again, seen);
    assert h.sent + [true] + [true] == h.sent + [true, true];
    RetryAfterDeaf(c, h, env, cycles, maxRetries, 0);
    hide Attempted, TimersFit, Deaf, OfferedAll;
    assert Retried(c, failed, OpenValve, cycles, maxRetries, 1).1 == Finished(Ok);
  }

  /** What happens in a backoff counts: a valve lost in it leaves the retry of an open waiting for ever. */
  lemma LostInBackoff(c: Config, h: Host, cycles: seq<Cycle>, maxRetries: nat, env: Env, gone: Env)
    requires TimersFit(c, h) && h.fsm.state == Idle
    requires h.fsm.failureCount + 1 < c.maxConsecutiveFailures && 0 < maxRetries < |cycles|
    requires AmbientOnly(cycles[1].during)
    requires cycles[0] == Deaf(env).(backoff := [Moment(Notice(ObsUnavailable), gone)])
    ensures var (after, r, used) := Commanded(c, h, OpenValve, true, cycles, maxRetries);
      r == Waiting && used == 1 && OpenAdrift(c, after)
  {
    var failed := Attempted(c, h, OpenValve, Deaf(env));
    DeafAttempt(c, h, env);
    var m := Moment(Notice(ObsUnavailable), gone);
    SameAttempt(c, h, OpenValve, Deaf(env), cycles[0]);
    assert [m][1..] == [] && OfferedAll(c, failed, [m]) == OfferedAll(c, Offered(c, failed, m), []);
    var lost := Offered(c, failed, m);
    LosingIt(c, failed, gone);
    BegunLost(c, lost, cycles[1].levelMatches, cycles[1].env);
    AdriftWaitsForever(c, Begin(c, lost, OpenValve, cycles[1].levelMatches, cycles[1].env), cycles[1].during);
    assert OpenAdrift(c, Attempted(c, lost, OpenValve, cycles[1]));
    hide Attempted, TimersFit, Deaf, OfferedAll, Offered, WellTimed;
    assert Retried(c, lost, OpenValve, cycles, maxRetries, 1).1 == Waiting;
  }

  lemma SameAttempt(c: Config, h: Host, cmd: Command, a: Cycle, b: Cycle)
    requires b == a.(backoff := b.backoff)
    ensures Attempted(c, h, cmd, a) == Attempted(c, h, cmd, b)
  {
  }

  lemma LosingIt(c: Config, h: Host, env: Env)
    requires TimersFit(c, h) && h.fsm.state == Idle && h.completion.Done?
    ensures var after := Apply(c, h, Moment(Notice(ObsUnavailable), env));
      WellTimed(c, after) && after.fsm.state == Unreachable && after.completion.Done?
  {
    EventKeepsTimers(c, h, ObsUnavailable, env);
    hide Execute, Guard, WellTimed;
  }

  lemma BegunLost(c: Config, h: Host, levelMatches: bool, env: Env)
    requires TimersFit(c, h) && h.fsm.state == Unreachable
    ensures OpenAdrift(c, Begin(c, h, OpenValve, levelMatches, env))
  {
    BeginKeepsTimers(c, h, OpenValve, levelMatches, env);
    BeginExpects(c, h, OpenValve, levelMatches, env);
    hide Execute, Guard, WellTimed;
  }

  // ---------- Confirmation by level

  /** A valve that reads open already is confirmed at once: without a meter that is all an open needs. */
  lemma LevelOpens(c: Config, h: Host, env: Env)
    requires TimersFit(c, h) && h.fsm.state == Idle
    ensures var begun := Begin(c, h, OpenValve, true, env);
      && begun.fsm == h.fsm.(state := Open) && begun.sent == h.sent + [true]
      && begun.completion == (if c.hasFlowMeter then Pending else Done(Ok))
      && begun.timers.Keys == (if c.hasFlowMeter then {FlowTimer} else {})
  {
    BeginKeepsTimers(c, h, OpenValve, true, env);
    CommandSends(c, h, OpenValve, true, env);
    LevelReached(c, h, env);
    hide Begin;
  }

  lemma LevelReached(c: Config, h: Host, env: Env)
    requires h.fsm.state == Idle
    ensures var begun := Begin(c, h, OpenValve, true, env);
      begun.fsm == h.fsm.(state := Open) && begun.completion == (if c.hasFlowMeter then Pending else Done(Ok))
  {
    hide Execute, Guard;
  }

  /** A command given up makes room for the next, and touches nothing else. */
  lemma AbandonedMakesRoom(c: Config, h: Host, env: Env, next: Command, levelMatches: bool, later: Env)
    requires h.completion == Pending
    ensures var begin := Moment(DriverSteps.Input.Command(next, levelMatches), later);
      var after := Apply(c, h, Moment(Abandon, env));
      !Enabled(h, begin) && Enabled(after, begin) && after == h.(completion := after.completion)
  {
  }
}
