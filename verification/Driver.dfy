/**
 The driver object: the fields that `DriverSteps.Dispatch` describes, changed step by step, and
 the retry loop that owns a command.
 */
module Driver {
  import opened ValveFsm
  import opened DriverSteps
  import opened CommandRuns

  class Driver {
    const fsm: ValveFsm
    const maxRetries: nat
    var timers: map<Timer, Event>
    var expected: set<State>
    var completion: Completion
    var watchdog: Watchdog
    var sent: seq<bool>

    ghost function Value(): Host
      reads this, fsm
    {
      Host(fsm.Value(), timers, expected, completion, watchdog, sent)
    }

    constructor (hasFlowMeter: bool, maxRetries: nat)
      ensures fresh(fsm) && Value() == FRESH && this.maxRetries == maxRetries
      ensures fsm.config == Config(hasFlowMeter, maxRetries + 1)
    {
      fsm := new ValveFsm(Config(hasFlowMeter, maxRetries + 1));
      this.maxRetries := maxRetries;
      timers, expected, completion, watchdog, sent := map[], {}, NoCommand, Off, [];
    }

    method DispatchEvent(e: Event, env: Env)
      modifies this, fsm
      ensures Value() == Dispatch(fsm.config, old(Value()), e, env)
    {
      var t := fsm.Dispatch(e);
      ExecuteActions(t.actions, env);
      CheckTerminal(t);
      ManageWatchdog(env);
    }

    method ExecuteActions(actions: seq<Action>, env: Env)
      modifies this`timers, this`sent
      ensures Value() == Execute(old(Value()), actions, env)
    {
      for n := 0 to |actions|
        invariant Value() == Execute(old(Value()), actions[..n], env)
      {
        assert actions[..n + 1][..n] == actions[..n];
        match actions[n]
        case SendSwitchOn => sent := sent + [true];
        case SendSwitchOff => sent := sent + [false];
        case StartTimer(t) => timers := timers[t := TimeoutOf(t, env)];
        case CancelTimer(t) => timers := timers - {t};
        case CancelAllTimers => timers := map[];
        case NotifyFailure(_) =>
        case EnterMaintenance =>
      }
      assert actions[..|actions|] == actions;
    }

    method CheckTerminal(t: Transition)
      modifies this`completion
      ensures completion == Settle(old(completion), expected, t)
    {
      if completion != Pending {
        return;
      }
      if t.toState == Maintenance {
        completion := Done(Locked(t.failure));
      } else if t.failure.Some? {
        completion := Done(FailedWith(t.failure.value));
      } else if t.toState in expected {
        completion := Done(Ok);
      }
    }

    method ManageWatchdog(env: Env)
      modifies this`watchdog
      ensures watchdog == Guard(old(watchdog), fsm.state, env)
    {
      if IsOpen(fsm.state) {
        if !watchdog.Armed? {
          watchdog := Armed(env.nowS + env.maxOpenS);
        }
      } else {
        watchdog := Off;
      }
    }

    /** One occurrence outside the retry loop's own commands. */
    method Handle(m: Moment)
      requires Enabled(Value(), m) && !m.input.Command?
      modifies this, fsm
      ensures Value() == Apply(fsm.config, old(Value()), m)
    {
      match m.input
      case Notice(e) => DispatchEvent(e, m.env);
      case Expire(t) =>
        var event := timers[t];
        timers := timers - {t};
        DispatchEvent(event, m.env);
      case WatchdogFires => watchdog, sent := Elapsed, sent + [false];
      case Abandon => completion := NoCommand;
    }

    /** Take what the surroundings bring, unless it has become impossible. */
    method Offer(m: Moment)
      requires !m.input.Command?
      modifies this, fsm
      ensures Value() == if Enabled(old(Value()), m) then Apply(fsm.config, old(Value()), m) else old(Value())
    {
      var possible :=
        match m.input
        case Notice(e) => External(e)
        case Expire(t) => t in timers
        case WatchdogFires => watchdog.Armed? && m.env.nowS >= watchdog.deadlineS
        case Abandon => completion == Pending;
      if possible {
        Handle(m);
      }
    }

    method BeginCycle(cmd: Command, levelMatches: bool, env: Env)
      modifies this, fsm
      ensures Value() == Begin(fsm.config, old(Value()), cmd, levelMatches, env)
    {
      completion := Pending;
      expected := Terminals(fsm.config, cmd);
      DispatchEvent(EventOf(cmd), env);
      if completion == Pending && levelMatches {
        DispatchEvent(Confirmation(cmd), env);
      }
    }

    /** Take what comes until the future is settled. */
    method Await(moments: seq<Moment>)
      requires AmbientOnly(moments)
      modifies this, fsm
      ensures Value() == UntilSettled(fsm.config, old(Value()), moments)
    {
      var n := 0;
      while n < |moments| && completion == Pending
        invariant 0 <= n <= |moments|
        invariant UntilSettled(fsm.config, Value(), moments[n..]) == UntilSettled(fsm.config, old(Value()), moments)
      {
        assert moments[n..][1..] == moments[n + 1..];
        Offer(moments[n]);
        n := n + 1;
      }
    }

    /** One attempt. */
    method RunCycle(cmd: Command, cycle: Cycle)
      requires AmbientOnly(cycle.during)
      modifies this, fsm
      ensures Value() == Attempted(fsm.config, old(Value()), cmd, cycle)
    {
      BeginCycle(cmd, cycle.levelMatches, cycle.env);
      Await(cycle.during);
    }

    /** Wait out a backoff. */
    method BackOff(moments: seq<Moment>)
      requires AmbientOnly(moments)
      modifies this, fsm
      ensures Value() == OfferedAll(fsm.config, old(Value()), moments)
    {
      for n := 0 to |moments|
        invariant OfferedAll(fsm.config, Value(), moments[n..]) == OfferedAll(fsm.config, old(Value()), moments)
      {
        assert moments[n..][1..] == moments[n + 1..];
        Offer(moments[n]);
      }
    }

    /** A command with its retries: `CommandRuns` says what it comes to. */
    method RunCommand(cmd: Command, readable: bool, cycles: seq<Cycle>) returns (r: CommandResult, retries: nat)
      requires |cycles| > maxRetries && AllAmbient(cycles)
      modifies this, fsm
      ensures (Value(), r, retries) == Commanded(fsm.config, old(Value()), cmd, readable, cycles, maxRetries)
    {
      retries := 0;
      if fsm.state == Maintenance {
        return InMaintenance, 0;
      }
      if !readable {
        return PrecheckFailed, 0;
      }
      while true
        invariant retries <= maxRetries
        invariant Retried(fsm.config, Value(), cmd, cycles, maxRetries, retries)
               == Commanded(fsm.config, old(Value()), cmd, readable, cycles, maxRetries)
        decreases maxRetries - retries
      {
        RunCycle(cmd, cycles[retries]);
        if !completion.Done? {
          return Waiting, retries;
        }
        if !IsRetryable(completion.result) || retries >= maxRetries {
          return Finished(completion.result), retries;
        }
        BackOff(cycles[retries].backoff);
        retries := retries + 1;
      }
    }
  }
}
