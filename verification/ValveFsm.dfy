/**
 The per-valve state machine: each event moves it, or not, and leaves actions for a host to carry
 out. `Step` is the machine on values; the class dispatches on fields and is
 proved to follow it.
 */
module ValveFsm {
  import opened Wrappers

  datatype State = Idle | ReqOpen | Open | OpenVerified | ReqClose | Closed | Unreachable | Maintenance

  datatype Event =
    | CmdOpen | CmdClose | CmdReset
    | ObsSwitchOn | ObsSwitchOff | ObsFlowPositive | ObsFlowZero | ObsUnavailable | ObsAvailable
    | TimeoutOpen | TimeoutClose | TimeoutFlow | FlowUnverifiable | TimeoutLeak

  datatype Failure = OpenFailed | ActuationFailed | CloseVerificationFailed | CloseLeak

  datatype Timer = OpenTimer | CloseTimer | FlowTimer | LeakTimer

  datatype Action =
    | SendSwitchOn | SendSwitchOff
    | StartTimer(started: Timer) | CancelTimer(cancelled: Timer) | CancelAllTimers
    | NotifyFailure(kind: Failure) | EnterMaintenance

  datatype Config = Config(hasFlowMeter: bool, maxConsecutiveFailures: nat)

  /** The machine's fields. */
  datatype Fsm = Fsm(state: State, failureCount: nat, lastFailure: Option<Failure>)

  const INITIAL := Fsm(Idle, 0, None)

  datatype Transition = Transition(fromState: State, toState: State, event: Event, actions: seq<Action>,
                                   failure: Option<Failure>, failureCount: nat)

  // ---------- The machine on values

  /** What a step does besides moving: nothing, forget past failures, or record one. */
  datatype Effect = Stay | Move(to: State, actions: seq<Action>) | Clean(to: State, actions: seq<Action>)
                  | Fail(kind: Failure, extra: seq<Action>)

  function Respond(c: Config, s: State, e: Event): Effect {
    match s
    case Maintenance => if e == CmdReset then Clean(Idle, []) else Stay
    case Unreachable => if e == ObsAvailable then Move(Idle, []) else Stay
    case _ =>
      if e == ObsUnavailable then Move(Unreachable, [CancelAllTimers])
      else match s
        case Idle => if e == CmdOpen then Move(ReqOpen, [SendSwitchOn, StartTimer(OpenTimer)]) else Stay
        case ReqOpen =>
          (match e
           case ObsSwitchOn =>
             Move(Open, if c.hasFlowMeter then [CancelTimer(OpenTimer), StartTimer(FlowTimer)]
                        else [CancelTimer(OpenTimer)])
           case TimeoutOpen => Fail(OpenFailed, [])
           case CmdClose => Move(ReqClose, [CancelTimer(OpenTimer), SendSwitchOff, StartTimer(CloseTimer)])
           case _ => Stay)
        case Open =>
          (match e
           case ObsFlowPositive => if c.hasFlowMeter then Move(OpenVerified, [CancelTimer(FlowTimer)]) else Stay
           case FlowUnverifiable => if c.hasFlowMeter then Move(OpenVerified, [CancelTimer(FlowTimer)]) else Stay
           case TimeoutFlow => if c.hasFlowMeter then Fail(ActuationFailed, [SendSwitchOff]) else Stay
           case CmdClose =>
             Move(ReqClose, if c.hasFlowMeter then [CancelTimer(FlowTimer), SendSwitchOff, StartTimer(CloseTimer)]
                            else [SendSwitchOff, StartTimer(CloseTimer)])
           case ObsSwitchOff => Clean(Idle, [CancelAllTimers])
           case _ => Stay)
        case OpenVerified =>
          (match e
           case CmdClose => Move(ReqClose, [SendSwitchOff, StartTimer(CloseTimer)])
           case ObsSwitchOff => Clean(Idle, [CancelAllTimers])
           case _ => Stay)
        case ReqClose =>
          (match e
           case ObsSwitchOff =>
             if c.hasFlowMeter then Move(Closed, [CancelTimer(CloseTimer), StartTimer(LeakTimer)])
             else Clean(Idle, [CancelTimer(CloseTimer)])
           case TimeoutClose => Fail(CloseVerificationFailed, [])
           case _ => Stay)
        case Closed =>
          (match e
           case ObsFlowZero => Clean(Idle, [CancelTimer(LeakTimer)])
           case TimeoutLeak => Fail(CloseLeak, [])
           case _ => Stay)
  }

  function Step(c: Config, f: Fsm, e: Event): (Fsm, Transition) {
    match Respond(c, f.state, e)
    case Stay => (f, Transition(f.state, f.state, e, [], None, f.failureCount))
    case Move(to, actions) => (f.(state := to), Transition(f.state, to, e, actions, None, f.failureCount))
    case Clean(to, actions) => (Fsm(to, 0, None), Transition(f.state, to, e, actions, None, 0))
    case Fail(kind, extra) =>
      var n := f.failureCount + 1;
      var hit := n >= c.maxConsecutiveFailures;
      var to := if hit then Maintenance else Idle;
      (Fsm(to, n, Some(kind)),
       Transition(f.state, to, e, extra + [NotifyFailure(kind)] + (if hit then [EnterMaintenance] else []),
                  Some(kind), n))
  }

  class ValveFsm {
    const config: Config
    var state: State
    var failureCount: nat
    var lastFailure: Option<Failure>

    ghost function Value(): Fsm
      reads this
    {
      Fsm(state, failureCount, lastFailure)
    }

    constructor (config: Config)
      ensures this.config == config && Value() == INITIAL
    {
      this.config := config;
      state, failureCount, lastFailure := Idle, 0, None;
    }

    method Dispatch(event: Event) returns (t: Transition)
      modifies this
      ensures (Value(), t) == Step(config, old(Value()), event)
    {
      if state == Maintenance {
        t := HandleMaintenance(event);
      } else if event == ObsUnavailable {
        if state == Unreachable {
          t := Noop(event);
        } else {
          t := MoveTo(Unreachable, event, [CancelAllTimers], None);
        }
      } else {
        match state
        case Unreachable =>
          if event == ObsAvailable { t := MoveTo(Idle, event, [], None); } else { t := Noop(event); }
        case Idle =>
          if event == CmdOpen {
            t := MoveTo(ReqOpen, event, [SendSwitchOn, StartTimer(OpenTimer)], None);
          } else {
            t := Noop(event);
          }
        case ReqOpen => t := OnReqOpen(event);
        case Open => t := OnOpen(event);
        case OpenVerified => t := OnOpenVerified(event);
        case ReqClose => t := OnReqClose(event);
        case Closed => t := OnClosed(event);
      }
    }

    method OnReqOpen(event: Event) returns (t: Transition)
      requires state == ReqOpen && event != ObsUnavailable
      modifies this
      ensures (Value(), t) == Step(config, old(Value()), event)
    {
      if event == ObsSwitchOn {
        if config.hasFlowMeter {
          t := MoveTo(Open, event, [CancelTimer(OpenTimer), StartTimer(FlowTimer)], None);
        } else {
          t := MoveTo(Open, event, [CancelTimer(OpenTimer)], None);
        }
      } else if event == TimeoutOpen {
        t := RecordFailure(event, OpenFailed, []);
      } else if event == CmdClose {
        t := MoveTo(ReqClose, event, [CancelTimer(OpenTimer), SendSwitchOff, StartTimer(CloseTimer)], None);
      } else {
        t := Noop(event);
      }
    }

    method OnOpen(event: Event) returns (t: Transition)
      requires state == Open && event != ObsUnavailable
      modifies this
      ensures (Value(), t) == Step(config, old(Value()), event)
    {
      if config.hasFlowMeter {
        if event == ObsFlowPositive {
          t := MoveTo(OpenVerified, event, [CancelTimer(FlowTimer)], None);
        } else if event == TimeoutFlow {
          t := RecordFailure(event, ActuationFailed, [SendSwitchOff]);
        } else if event == FlowUnverifiable {
          t := MoveTo(OpenVerified, event, [CancelTimer(FlowTimer)], None);
        } else if event == CmdClose {
          t := MoveTo(ReqClose, event, [CancelTimer(FlowTimer), SendSwitchOff, StartTimer(CloseTimer)], None);
        } else if event == ObsSwitchOff {
          t := ExternalClose(event);
        } else {
          t := Noop(event);
        }
      } else if event == CmdClose {
        t := MoveTo(ReqClose, event, [SendSwitchOff, StartTimer(CloseTimer)], None);
      } else if event == ObsSwitchOff {
        t := ExternalClose(event);
      } else {
        t := Noop(event);
      }
    }

    method OnOpenVerified(event: Event) returns (t: Transition)
      requires state == OpenVerified && event != ObsUnavailable
      modifies this
      ensures (Value(), t) == Step(config, old(Value()), event)
    {
      if event == CmdClose {
        t := MoveTo(ReqClose, event, [SendSwitchOff, StartTimer(CloseTimer)], None);
      } else if event == ObsSwitchOff {
        t := ExternalClose(event);
      } else {
        t := Noop(event);
      }
    }

    method OnReqClose(event: Event) returns (t: Transition)
      requires state == ReqClose && event != ObsUnavailable
      modifies this
      ensures (Value(), t) == Step(config, old(Value()), event)
    {
      if event == ObsSwitchOff {
        if config.hasFlowMeter {
          t := MoveTo(Closed, event, [CancelTimer(CloseTimer), StartTimer(LeakTimer)], None);
        } else {
          failureCount, lastFailure := 0, None;
          t := MoveTo(Idle, event, [CancelTimer(CloseTimer)], None);
        }
      } else if event == TimeoutClose {
        t := RecordFailure(event, CloseVerificationFailed, []);
      } else {
        t := Noop(event);
      }
    }

    method OnClosed(event: Event) returns (t: Transition)
      requires state == Closed && event != ObsUnavailable
      modifies this
      ensures (Value(), t) == Step(config, old(Value()), event)
    {
      if event == ObsFlowZero {
        failureCount, lastFailure := 0, None;
        t := MoveTo(Idle, event, [CancelTimer(LeakTimer)], None);
      } else if event == TimeoutLeak {
        t := RecordFailure(event, CloseLeak, []);
      } else {
        t := Noop(event);
      }
    }

    /** The valve was seen off while open: a cycle closed cleanly by somebody else. */
    method ExternalClose(event: Event) returns (t: Transition)
      modifies this
      ensures Value() == Fsm(Idle, 0, None)
      ensures t == Transition(old(state), Idle, event, [CancelAllTimers], None, 0)
    {
      failureCount, lastFailure := 0, None;
      t := MoveTo(Idle, event, [CancelAllTimers], None);
    }

    method HandleMaintenance(event: Event) returns (t: Transition)
      requires state == Maintenance
      modifies this
      ensures (Value(), t) == Step(config, old(Value()), event)
    {
      if event == CmdReset {
        failureCount, lastFailure := 0, None;
        t := MoveTo(Idle, event, [], None);
      } else {
        t := Noop(event);
      }
    }

    method MoveTo(to: State, event: Event, actions: seq<Action>, failure: Option<Failure>) returns (t: Transition)
      modifies this`state
      ensures state == to
      ensures t == Transition(old(state), to, event, actions, failure, failureCount)
    {
      var from := state;
      state := to;
      t := Transition(from, to, event, actions, failure, failureCount);
    }

    method Noop(event: Event) returns (t: Transition)
      ensures t == Transition(state, state, event, [], None, failureCount)
    {
      t := Transition(state, state, event, [], None, failureCount);
    }

    method RecordFailure(event: Event, kind: Failure, extra: seq<Action>) returns (t: Transition)
      modifies this
      ensures failureCount == old(failureCount) + 1 && lastFailure == Some(kind)
      ensures state == if failureCount >= config.maxConsecutiveFailures then Maintenance else Idle
      ensures t == Transition(old(state), state, event,
                     extra + [NotifyFailure(kind)] + (if state == Maintenance then [EnterMaintenance] else []),
                     Some(kind), failureCount)
    {
      failureCount := failureCount + 1;
      lastFailure := Some(kind);
      var hit := failureCount >= config.maxConsecutiveFailures;
      var actions := extra + [NotifyFailure(kind)];
      if hit {
        actions := actions + [EnterMaintenance];
      }
      t := MoveTo(if hit then Maintenance else Idle, event, actions, Some(kind));
    }
  }

  // ---------- Histories

  /** The machine after a whole history of events. */
  function Run(c: Config, f: Fsm, events: seq<Event>): Fsm {
    if events == [] then f else Step(c, Run(c, f, events[..|events| - 1]), events[|events| - 1]).0
  }

  /** What a step reported: a failure, a return to Idle after water or a reset, or neither. */
  datatype Outcome = Failed(kind: Failure) | CleanCycle | Nothing

  /**
   Read off the outside of a transition: the valve confirmed shut, seen shut while open, its
   leak window passed dry, or a reset of a locked valve end a cycle cleanly.
   */
  function OutcomeOf(t: Transition): Outcome {
    if t.failure.Some? then Failed(t.failure.value)
    else if t.toState == Idle && (t.event == ObsSwitchOff || t.event == ObsFlowZero || t.event == CmdReset)
            && t.fromState != Idle
    then CleanCycle
    else Nothing
  }

  function Outcomes(c: Config, f: Fsm, events: seq<Event>): (r: seq<Outcome>)
    ensures |r| == |events|
  {
    if events == [] then []
    else
      var before := events[..|events| - 1];
      Outcomes(c, f, before) + [OutcomeOf(Step(c, Run(c, f, before), events[|events| - 1]).1)]
  }

  /** The failures reported since the last clean cycle, oldest first. */
  function Streak(outcomes: seq<Outcome>): seq<Failure> {
    if outcomes == [] then []
    else
      var rest := Streak(outcomes[..|outcomes| - 1]);
      match outcomes[|outcomes| - 1]
      case Failed(kind) => rest + [kind]
      case CleanCycle => []
      case Nothing => rest
  }

  /** What holds of the counter after any history. */
  ghost predicate CounterSound(c: Config, f: Fsm, streak: seq<Failure>) {
    && f.failureCount == |streak|
    && f.lastFailure == (if streak == [] then None else Some(streak[|streak| - 1]))
    && (f.state == Maintenance <==> f.failureCount >= c.maxConsecutiveFailures)
    && f.failureCount <= c.maxConsecutiveFailures
  }

  /**
   Over any history of events the counter is the number of failures since the last clean cycle,
   the last failure is the newest of them, and the valve is locked exactly when the counter has
   reached the configured maximum.
   */
  lemma {:induction false} CounterOverHistory(c: Config, events: seq<Event>)
    requires c.maxConsecutiveFailures > 0
    ensures CounterSound(c, Run(c, INITIAL, events), Streak(Outcomes(c, INITIAL, events)))
  {
    if events != [] {
      var before, e := events[..|events| - 1], events[|events| - 1];
      CounterOverHistory(c, before);
      var f := Run(c, INITIAL, before);
      var outcomes := Outcomes(c, INITIAL, before);
      var o := OutcomeOf(Step(c, f, e).1);
      assert Outcomes(c, INITIAL, events) == outcomes + [o];
      assert (outcomes + [o])[..|outcomes|] == outcomes;
      CounterStep(c, f, e, Streak(outcomes));
    }
  }

  lemma CounterStep(c: Config, f: Fsm, e: Event, streak: seq<Failure>)
    requires c.maxConsecutiveFailures > 0
    requires CounterSound(c, f, streak)
    ensures var (f', t) := Step(c, f, e);
      CounterSound(c, f',
        match OutcomeOf(t) case Failed(kind) => streak + [kind] case CleanCycle => [] case Nothing => streak)
  {
  }

  /** Without a meter the verification states are never entered. */
  lemma {:induction false} UnmeteredSkipsVerification(c: Config, events: seq<Event>)
    requires !c.hasFlowMeter
    ensures Run(c, INITIAL, events).state !in {OpenVerified, Closed}
  {
    if events != [] {
      UnmeteredSkipsVerification(c, events[..|events| - 1]);
    }
  }

  /** The switch was seen off after a close was asked for, and the leak window has been open since. */
  ghost predicate SawOff(c: Config, events: seq<Event>, i: int) {
    && 0 <= i < |events|
    && events[i] == ObsSwitchOff && Run(c, INITIAL, events[..i]).state == ReqClose
    && forall j :: i < j <= |events| ==> Run(c, INITIAL, events[..j]).state == Closed
  }

  lemma EnteringClosed(c: Config, f: Fsm, e: Event)
    requires Step(c, f, e).0.state == Closed && f.state != Closed
    ensures f.state == ReqClose && e == ObsSwitchOff
  {
  }

  lemma StillClosed(c: Config, events: seq<Event>, i: int)
    requires events != [] && SawOff(c, events[..|events| - 1], i) && Run(c, INITIAL, events).state == Closed
    ensures SawOff(c, events, i)
  {
    hide Run;
    assert events[..|events|] == events;
    assert forall j :: 0 <= j < |events| ==> events[..|events| - 1][..j] == events[..j];
  }

  lemma JustClosed(c: Config, events: seq<Event>)
    requires events != [] && Run(c, INITIAL, events).state == Closed
    requires Run(c, INITIAL, events[..|events| - 1]).state != Closed
    ensures SawOff(c, events, |events| - 1)
  {
    EnteringClosed(c, Run(c, INITIAL, events[..|events| - 1]), events[|events| - 1]);
    hide Step;
    assert events[..|events|] == events;
  }

  /** The leak window always lies behind a switch seen off for a close, and behind nothing else. */
  lemma {:induction false} ClosedSawOff(c: Config, events: seq<Event>)
    ensures Run(c, INITIAL, events).state == Closed <==> exists i :: SawOff(c, events, i)
  {
    if i :| SawOff(c, events, i) {
      assert events[..|events|] == events;
    }
    if Run(c, INITIAL, events).state == Closed {
      assert events != [];
      hide Run;
      var before := events[..|events| - 1];
      if Run(c, INITIAL, before).state == Closed {
        ClosedSawOff(c, before);
        hide SawOff;
        var i :| SawOff(c, before, i);
        StillClosed(c, events, i);
      } else {
        JustClosed(c, events);
      }
    }
  }

  // ---------- The table, read backwards

  /** What records a failure, and which. */
  function FailureAt(c: Config, s: State, e: Event): Option<Failure> {
    match e
    case TimeoutOpen => if s == ReqOpen then Some(OpenFailed) else None
    case TimeoutFlow => if s == Open && c.hasFlowMeter then Some(ActuationFailed) else None
    case TimeoutClose => if s == ReqClose then Some(CloseVerificationFailed) else None
    case TimeoutLeak => if s == Closed then Some(CloseLeak) else None
    case _ => None
  }

  predicate Enters(c: Config, f: Fsm, e: Event, s: State) {
    f.state != s && Step(c, f, e).0.state == s
  }

  /** For every state, exactly what leads into it. */
  lemma EntersWorking(c: Config, f: Fsm, e: Event)
    ensures Enters(c, f, e, ReqOpen) <==> f.state == Idle && e == CmdOpen
    ensures Enters(c, f, e, Open) <==> f.state == ReqOpen && e == ObsSwitchOn
    ensures Enters(c, f, e, OpenVerified)
      <==> c.hasFlowMeter && f.state == Open && (e == ObsFlowPositive || e == FlowUnverifiable)
    ensures Enters(c, f, e, ReqClose) <==> f.state in {ReqOpen, Open, OpenVerified} && e == CmdClose
    ensures Enters(c, f, e, Closed) <==> c.hasFlowMeter && f.state == ReqClose && e == ObsSwitchOff
    ensures Enters(c, f, e, Unreachable) <==> f.state !in {Maintenance, Unreachable} && e == ObsUnavailable
  {
  }

  lemma EntersResting(c: Config, f: Fsm, e: Event)
    ensures Enters(c, f, e, Maintenance)
      <==> FailureAt(c, f.state, e).Some? && f.failureCount + 1 >= c.maxConsecutiveFailures
    ensures Enters(c, f, e, Idle)
      <==> || (FailureAt(c, f.state, e).Some? && f.failureCount + 1 < c.maxConsecutiveFailures)
           || (f.state == Maintenance && e == CmdReset)
           || (f.state == Unreachable && e == ObsAvailable)
           || (f.state in {Open, OpenVerified} && e == ObsSwitchOff)
           || (f.state == ReqClose && !c.hasFlowMeter && e == ObsSwitchOff)
           || (f.state == Closed && e == ObsFlowZero)
  {
  }

  /** Every failure is counted, by its kind, and a transition reports what it did. */
  lemma FailuresAreCounted(c: Config, f: Fsm, e: Event)
    ensures var (f', t) := Step(c, f, e);
      && t.failure == FailureAt(c, f.state, e)
      && (t.failure.Some? ==> f'.failureCount == f.failureCount + 1 && f'.lastFailure == t.failure)
      && t.failureCount == f'.failureCount && t.toState == f'.state && t.fromState == f.state && t.event == e
  {
  }

  /** Every failure is told, by its kind, and so is the lock when it falls. */
  lemma FailuresAreTold(c: Config, f: Fsm, e: Event)
    ensures var (f', t) := Step(c, f, e);
      && (forall kind :: NotifyFailure(kind) in t.actions <==> t.failure == Some(kind))
      && (EnterMaintenance in t.actions <==> f.state != Maintenance && f'.state == Maintenance)
  {
  }
}
