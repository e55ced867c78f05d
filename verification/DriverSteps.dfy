/**
 The host of the valve state machine: it executes the machine's actions, runs its timers,
 settles the future a command waits on, retries, and keeps an absolute watchdog while the valve
 is open.

 `Host` and `Dispatch` describe one dispatch with all its actions as one atomic step; the class
 carries it out on fields. What holds over whole runs is proved here, on values.
 */
module DriverSteps {
  import opened Wrappers
  import opened ValveFsm

  datatype Command = OpenValve | CloseValve

  datatype Result = Ok | FailedWith(kind: Failure) | Locked(why: Option<Failure>)

  datatype Completion = NoCommand | Pending | Done(result: Result)

  /** The watchdog task: absent, asleep until its deadline, or run out. */
  datatype Watchdog = Off | Armed(deadlineS: real) | Elapsed

  /**
   `timers` maps each running timer to the event it will dispatch; `sent` is every command given
   to the actuator, true for on.
   */
  datatype Host = Host(fsm: Fsm, timers: map<Timer, Event>, expected: set<State>, completion: Completion,
                       watchdog: Watchdog, sent: seq<bool>)

  const FRESH := Host(INITIAL, map[], {}, NoCommand, Off, [])

  /**
   What the surroundings supply at a dispatch: the clock, how long the valve may stay open, and
   whether the meter is too slow for flow to be verified at all.
   */
  datatype Env = Env(nowS: real, maxOpenS: real, flowHopeless: bool)

  predicate IsOpen(s: State) {
    s == Open || s == OpenVerified
  }

  function EventOf(cmd: Command): Event {
    match cmd case OpenValve => CmdOpen case CloseValve => CmdClose
  }

  /** The observation that confirms a command whose level is already there. */
  function Confirmation(cmd: Command): Event {
    match cmd case OpenValve => ObsSwitchOn case CloseValve => ObsSwitchOff
  }

  /** The states a command waits for. */
  function Terminals(c: Config, cmd: Command): set<State> {
    match cmd
    case OpenValve => if c.hasFlowMeter then {OpenVerified} else {Open}
    case CloseValve => {Idle}
  }

  function TimeoutOf(t: Timer, env: Env): Event {
    match t
    case OpenTimer => TimeoutOpen
    case CloseTimer => TimeoutClose
    case FlowTimer => if env.flowHopeless then FlowUnverifiable else TimeoutFlow
    case LeakTimer => TimeoutLeak
  }

  function ExecuteOne(h: Host, a: Action, env: Env): Host {
    match a
    case SendSwitchOn => h.(sent := h.sent + [true])
    case SendSwitchOff => h.(sent := h.sent + [false])
    case StartTimer(t) => h.(timers := h.timers[t := TimeoutOf(t, env)])
    case CancelTimer(t) => h.(timers := h.timers - {t})
    case CancelAllTimers => h.(timers := map[])
    case NotifyFailure(_) => h
    case EnterMaintenance => h
  }

  function Execute(h: Host, actions: seq<Action>, env: Env): (r: Host)
    ensures r == h.(timers := r.timers, sent := r.sent)
  {
    if actions == [] then h
    else ExecuteOne(Execute(h, actions[..|actions| - 1], env), actions[|actions| - 1], env)
  }

  function Settle(completion: Completion, expected: set<State>, t: Transition): Completion {
    if completion != Pending then completion
    else if t.toState == Maintenance then Done(Locked(t.failure))
    else if t.failure.Some? then Done(FailedWith(t.failure.value))
    else if t.toState in expected then Done(Ok)
    else Pending
  }

  function Guard(w: Watchdog, s: State, env: Env): Watchdog {
    if !IsOpen(s) then Off
    else if w.Armed? then w
    else Armed(env.nowS + env.maxOpenS)
  }

  /** One dispatch: the machine steps, its actions are executed, the future and watchdog follow. */
  function Dispatch(c: Config, h: Host, e: Event, env: Env): Host {
    var (fsm, t) := Step(c, h.fsm, e);
    var acted := Execute(h.(fsm := fsm), t.actions, env);
    acted.(completion := Settle(h.completion, h.expected, t), watchdog := Guard(h.watchdog, fsm.state, env))
  }

  /** The start of a command's cycle, confirmed by level when the entity already reads it. */
  function Begin(c: Config, h: Host, cmd: Command, levelMatches: bool, env: Env): Host {
    var started := Dispatch(c, h.(expected := Terminals(c, cmd), completion := Pending), EventOf(cmd), env);
    if started.completion == Pending && levelMatches then Dispatch(c, started, Confirmation(cmd), env) else started
  }

  /** Everything that can happen to a host. */
  datatype Input =
    | Command(cmd: Command, levelMatches: bool)
    | Notice(event: Event)
    | Expire(timer: Timer)
    | WatchdogFires
    | Abandon

  datatype Moment = Moment(input: Input, env: Env)

  /** The events that reach the machine from outside: observations and the user's reset. */
  predicate External(e: Event) {
    e in {ObsSwitchOn, ObsSwitchOff, ObsFlowPositive, ObsFlowZero, ObsUnavailable, ObsAvailable, CmdReset}
  }

  /** Commands are serialized by a lock, and only a running task can elapse or be abandoned. */
  predicate Enabled(h: Host, m: Moment) {
    match m.input
    case Command(_, _) => h.completion != Pending
    case Notice(e) => External(e)
    case Expire(t) => t in h.timers
    case WatchdogFires => h.watchdog.Armed? && m.env.nowS >= h.watchdog.deadlineS
    case Abandon => h.completion == Pending
  }

  function Apply(c: Config, h: Host, m: Moment): Host
    requires Enabled(h, m)
  {
    match m.input
    case Command(cmd, levelMatches) => Begin(c, h, cmd, levelMatches, m.env)
    case Notice(e) => Dispatch(c, h, e, m.env)
    case Expire(t) => Dispatch(c, h.(timers := h.timers - {t}), h.timers[t], m.env)
    case WatchdogFires => h.(watchdog := Elapsed, sent := h.sent + [false])
    case Abandon => h.(completion := NoCommand)
  }

  predicate IsRetryable(r: Result) {
    r.FailedWith? && (r.kind == OpenFailed || r.kind == CloseVerificationFailed)
  }

  // ---------- The armed timer is the one the state waits for

  function Awaited(c: Config, s: State): set<Timer> {
    match s
    case ReqOpen => {OpenTimer}
    case Open => if c.hasFlowMeter then {FlowTimer} else {}
    case ReqClose => {CloseTimer}
    case Closed => {LeakTimer}
    case _ => {}
  }

  function Expiries(t: Timer): set<Event> {
    match t
    case OpenTimer => {TimeoutOpen}
    case CloseTimer => {TimeoutClose}
    case FlowTimer => {TimeoutFlow, FlowUnverifiable}
    case LeakTimer => {TimeoutLeak}
  }

  ghost predicate TimersFit(c: Config, h: Host) {
    && h.timers.Keys == Awaited(c, h.fsm.state)
    && (forall t :: t in h.timers ==> h.timers[t] in Expiries(t))
    && (!c.hasFlowMeter ==> h.fsm.state !in {OpenVerified, Closed})
  }

  /** The invariant of every run. */
  ghost predicate WellTimed(c: Config, h: Host) {
    TimersFit(c, h) && (h.watchdog == Off <==> !IsOpen(h.fsm.state))
  }

  /** The names of the timers an action leaves running. */
  function Running(names: set<Timer>, actions: seq<Action>): set<Timer> {
    if actions == [] then names
    else
      Running1(Running(names, actions[..|actions| - 1]), actions[|actions| - 1])
  }

  lemma {:induction false} ExecuteFits(h: Host, actions: seq<Action>, env: Env)
    requires forall t :: t in h.timers ==> h.timers[t] in Expiries(t)
    ensures var after := Execute(h, actions, env);
      && after.timers.Keys == Running(h.timers.Keys, actions)
      && forall t :: t in after.timers ==> after.timers[t] in Expiries(t)
  {
    if actions != [] { ExecuteFits(h, actions[..|actions| - 1], env); }
  }

  lemma RunningUnrolled(names: set<Timer>, actions: seq<Action>)
    requires |actions| <= 3
    ensures |actions| == 1 ==> Running(names, actions) == Running1(names, actions[0])
    ensures |actions| == 2 ==> Running(names, actions) == Running1(Running1(names, actions[0]), actions[1])
    ensures |actions| == 3 ==>
      Running(names, actions) == Running1(Running1(Running1(names, actions[0]), actions[1]), actions[2])
  {
    if |actions| > 0 {
      RunningUnrolled(names, actions[..|actions| - 1]);
    }
  }

  function Running1(names: set<Timer>, a: Action): set<Timer> {
    match a
    case StartTimer(t) => names + {t}
    case CancelTimer(t) => names - {t}
    case CancelAllTimers => {}
    case _ => names
  }

  /** An event from outside leaves running exactly the timer the new state waits for. */
  lemma EventRunsAwaited(c: Config, f: Fsm, e: Event)
    requires !c.hasFlowMeter ==> f.state !in {OpenVerified, Closed}
    requires External(e) || e in {CmdOpen, CmdClose}
    ensures var (f', t) := Step(c, f, e);
      Running(Awaited(c, f.state), t.actions) == Awaited(c, f'.state)
  {
    if f.state == ReqOpen || f.state == Open {
      OpeningRunsAwaited(c, f, e);
    } else {
      RunningUnrolled(Awaited(c, f.state), Step(c, f, e).1.actions);
    }
  }

  lemma OpeningRunsAwaited(c: Config, f: Fsm, e: Event)
    requires f.state == ReqOpen || f.state == Open
    requires External(e) || e in {CmdOpen, CmdClose}
    ensures var (f', t) := Step(c, f, e);
      Running(Awaited(c, f.state), t.actions) == Awaited(c, f'.state)
  {
    RunningUnrolled(Awaited(c, f.state), Step(c, f, e).1.actions);
  }

  /** The expiry of the awaited timer moves the machine, and again leaves the awaited one. */
  lemma ExpiryRunsAwaited(c: Config, f: Fsm, timer: Timer, e: Event)
    requires timer in Awaited(c, f.state) && e in Expiries(timer)
    ensures var (f', t) := Step(c, f, e);
      Running({}, t.actions) == Awaited(c, f'.state) == {} && f'.state != f.state
  {
    hide Running;
    StartsNothing(Step(c, f, e).1.actions);
  }

  lemma {:induction false} StartsNothing(actions: seq<Action>)
    requires forall a :: a in actions ==> !a.StartTimer?
    ensures Running({}, actions) == {}
  {
    if actions != [] { StartsNothing(actions[..|actions| - 1]); }
  }

  /** A dispatch from outside keeps the armed timer and the awaited one the same. */
  lemma EventKeepsTimers(c: Config, h: Host, e: Event, env: Env)
    requires TimersFit(c, h) && (External(e) || e in {CmdOpen, CmdClose})
    ensures WellTimed(c, Dispatch(c, h, e, env))
  {
    var (fsm, t) := Step(c, h.fsm, e);
    EventRunsAwaited(c, h.fsm, e);
    ExecuteFits(h.(fsm := fsm), t.actions, env);
  }

  /** So does the expiry of the timer itself, and the machine always acts on it. */
  lemma ExpiryIsNeverStale(c: Config, h: Host, timer: Timer, env: Env)
    requires TimersFit(c, h) && timer in h.timers
    ensures var after := Dispatch(c, h.(timers := h.timers - {timer}), h.timers[timer], env);
      WellTimed(c, after) && after.fsm.state != h.fsm.state
  {
    var (fsm, t) := Step(c, h.fsm, h.timers[timer]);
    ExpiryRunsAwaited(c, h.fsm, timer, h.timers[timer]);
    assert (h.timers - {timer}).Keys == {};
    ExecuteFits(h.(timers := h.timers - {timer}, fsm := fsm), t.actions, env);
  }

  lemma BeginKeepsTimers(c: Config, h: Host, cmd: Command, levelMatches: bool, env: Env)
    requires TimersFit(c, h)
    ensures WellTimed(c, Begin(c, h, cmd, levelMatches, env))
  {
    var h' := h.(expected := Terminals(c, cmd), completion := Pending);
    EventKeepsTimers(c, h', EventOf(cmd), env);
    EventKeepsTimers(c, Dispatch(c, h', EventOf(cmd), env), Confirmation(cmd), env);
  }

  lemma MomentKeepsTimers(c: Config, h: Host, m: Moment)
    requires WellTimed(c, h) && Enabled(h, m)
    ensures WellTimed(c, Apply(c, h, m))
  {
    match m.input
    case Command(cmd, levelMatches) => BeginKeepsTimers(c, h, cmd, levelMatches, m.env);
    case Notice(e) => EventKeepsTimers(c, h, e, m.env);
    case Expire(t) => ExpiryIsNeverStale(c, h, t, m.env);
    case WatchdogFires =>
    case Abandon =>
  }

  // ---------- Runs

  /** Every moment is possible when it comes, and the clock does not run backwards. */
  ghost predicate IsRun(c: Config, h: Host, moments: seq<Moment>)
    decreases |moments|
  {
    moments == [] ||
    (Enabled(h, moments[0]) &&
     (|moments| > 1 ==> moments[0].env.nowS <= moments[1].env.nowS) &&
     IsRun(c, Apply(c, h, moments[0]), moments[1..]))
  }

  ghost function After(c: Config, h: Host, moments: seq<Moment>): Host
    requires IsRun(c, h, moments)
    decreases |moments|
  {
    if moments == [] then h else After(c, Apply(c, h, moments[0]), moments[1..])
  }

  /**
   On every run of commands, observations, expiries, retries and resets, through UNREACHABLE and
   MAINTENANCE, exactly the timer the state waits for is armed, and the watchdog is present, asleep
   or run out, exactly while the valve is open.
   */
  lemma {:induction false} TimersMatchOnEveryRun(c: Config, h: Host, moments: seq<Moment>)
    requires WellTimed(c, h) && IsRun(c, h, moments)
    ensures WellTimed(c, After(c, h, moments))
    decreases |moments|
  {
    if moments != [] {
      MomentKeepsTimers(c, h, moments[0]);
      TimersMatchOnEveryRun(c, Apply(c, h, moments[0]), moments[1..]);
    }
  }

  // ---------- The watchdog's deadline

  /** The valve stays open, and its watchdog asleep, throughout. */
  ghost predicate StaysOpen(c: Config, h: Host, moments: seq<Moment>)
    requires IsRun(c, h, moments)
    decreases |moments|
  {
    && IsOpen(h.fsm.state)
    && (moments == [] || (moments[0].input != WatchdogFires && StaysOpen(c, Apply(c, h, moments[0]), moments[1..])))
  }

  /** The watchdog is served on time: nothing happens after its deadline before it does. */
  ghost predicate Punctual(c: Config, h: Host, moments: seq<Moment>)
    requires IsRun(c, h, moments)
    decreases |moments|
  {
    moments == [] ||
    ((h.watchdog.Armed? ==> moments[0].env.nowS <= h.watchdog.deadlineS) &&
     Punctual(c, Apply(c, h, moments[0]), moments[1..]))
  }

  /** Opening arms it, for the time the valve may stay open from this moment. */
  lemma OpeningArmsWatchdog(c: Config, h: Host, e: Event, env: Env)
    requires WellTimed(c, h) && !IsOpen(h.fsm.state)
    ensures IsOpen(Dispatch(c, h, e, env).fsm.state)
      ==> Dispatch(c, h, e, env).watchdog == Armed(env.nowS + env.maxOpenS)
  {
  }

  /** Every dispatch leaves it armed exactly if the valve is open: one that has run out is renewed. */
  lemma DispatchArmsWatchdog(c: Config, h: Host, e: Event, env: Env)
    ensures Dispatch(c, h, e, env).watchdog.Armed? <==> IsOpen(Dispatch(c, h, e, env).fsm.state)
    ensures h.watchdog == Elapsed && IsOpen(Dispatch(c, h, e, env).fsm.state)
      ==> Dispatch(c, h, e, env).watchdog == Armed(env.nowS + env.maxOpenS)
  {
  }

  /** When it runs out the valve is open, and is told to shut; the machine learns of it only by what is seen. */
  lemma WatchdogTellsOff(c: Config, h: Host, m: Moment)
    requires WellTimed(c, h) && Enabled(h, m) && m.input == WatchdogFires
    ensures IsOpen(h.fsm.state)
    ensures var after := Apply(c, h, m);
      && after.sent == h.sent + [false] && after.watchdog == Elapsed
      && after.fsm == h.fsm && after.timers == h.timers && after.completion == h.completion
  {
  }

  lemma OpenKeepsDeadline(c: Config, h: Host, m: Moment)
    requires Enabled(h, m) && m.input != WatchdogFires
    requires h.watchdog.Armed? && IsOpen(h.fsm.state) && IsOpen(Apply(c, h, m).fsm.state)
    requires WellTimed(c, h)
    ensures Apply(c, h, m).watchdog == h.watchdog
  {
    match m.input
    case Command(cmd, levelMatches) =>
      var h' := h.(expected := Terminals(c, cmd), completion := Pending);
      if !IsOpen(Dispatch(c, h', EventOf(cmd), m.env).fsm.state) {
        BeginStaysShut(c, Dispatch(c, h', EventOf(cmd), m.env), cmd, m.env);
      }
    case _ =>
  }

  lemma BeginStaysShut(c: Config, h: Host, cmd: Command, env: Env)
    requires h.fsm.state !in {ReqOpen, Open, OpenVerified}
    ensures !IsOpen(Dispatch(c, h, Confirmation(cmd), env).fsm.state)
  {
  }

  /**
   No stream of observations postpones the watchdog: while the valve stays open its deadline is
   the one fixed when it opened, so on a punctual run the valve is never open past it unless the
   watchdog has fired.
   */
  lemma {:induction false} DeadlineIsFixed(c: Config, h: Host, moments: seq<Moment>)
    requires WellTimed(c, h) && h.watchdog.Armed?
    requires IsRun(c, h, moments) && StaysOpen(c, h, moments)
    ensures After(c, h, moments).watchdog == h.watchdog
    ensures Punctual(c, h, moments) ==> forall i :: 0 <= i < |moments| ==> moments[i].env.nowS <= h.watchdog.deadlineS
    decreases |moments|
  {
    if moments != [] {
      var next := Apply(c, h, moments[0]);
      MomentKeepsTimers(c, h, moments[0]);
      OpenKeepsDeadline(c, h, moments[0]);
      DeadlineIsFixed(c, next, moments[1..]);
      assert forall i :: 1 <= i < |moments| ==> moments[i] == moments[1..][i - 1];
    }
  }

  /** What the actuator has been told after an action. */
  function Told(sent: seq<bool>, a: Action): seq<bool> {
    match a case SendSwitchOn => sent + [true] case SendSwitchOff => sent + [false] case _ => sent
  }

  lemma ExecuteTells(h: Host, actions: seq<Action>, env: Env)
    requires |actions| <= 3
    ensures Execute(h, actions, env).sent ==
      match |actions|
      case 0 => h.sent
      case 1 => Told(h.sent, actions[0])
      case 2 => Told(Told(h.sent, actions[0]), actions[1])
      case _ => Told(Told(Told(h.sent, actions[0]), actions[1]), actions[2])
  {
    if |actions| > 0 { ExecuteTells(h, actions[..|actions| - 1], env); }
  }

  /**
   A command reaches the actuator exactly when the machine is where it applies: an open from IDLE,
   a close while opening or open. Its confirmation by level sends nothing.
   */
  lemma CommandSends(c: Config, h: Host, cmd: Command, levelMatches: bool, env: Env)
    ensures Begin(c, h, cmd, levelMatches, env).sent ==
      match cmd
      case OpenValve => if h.fsm.state == Idle then h.sent + [true] else h.sent
      case CloseValve => if h.fsm.state in {ReqOpen, Open, OpenVerified} then h.sent + [false] else h.sent
  {
    var h' := h.(expected := Terminals(c, cmd), completion := Pending);
    DispatchSends(c, h', EventOf(cmd), env);
    DispatchSends(c, Dispatch(c, h', EventOf(cmd), env), Confirmation(cmd), env);
    hide Dispatch, Step;
  }

  /** What the actuator is told by one event: on by an open from IDLE, off while opening or open. */
  lemma DispatchSends(c: Config, h: Host, e: Event, env: Env)
    ensures Dispatch(c, h, e, env).sent ==
      if h.fsm.state == Idle && e == CmdOpen then h.sent + [true]
      else if h.fsm.state in {ReqOpen, Open, OpenVerified} && e == CmdClose then h.sent + [false]
      else if h.fsm.state == Open && e == TimeoutFlow && c.hasFlowMeter then h.sent + [false]
      else h.sent
  {
    hide Dispatch;
    if h.fsm.state == ReqOpen || h.fsm.state == Open {
      OpeningSends(c, h, e, env);
    } else {
      ElsewhereSends(c, h, e, env);
    }
  }

  lemma ElsewhereSends(c: Config, h: Host, e: Event, env: Env)
    requires h.fsm.state != ReqOpen && h.fsm.state != Open
    ensures Dispatch(c, h, e, env).sent ==
      if h.fsm.state == Idle && e == CmdOpen then h.sent + [true]
      else if h.fsm.state == OpenVerified && e == CmdClose then h.sent + [false]
      else h.sent
  {
    hide Execute, Settle, Guard;
    var (fsm, t) := Step(c, h.fsm, e);
    ExecuteTells(h.(fsm := fsm), t.actions, env);
  }

  lemma OpeningSends(c: Config, h: Host, e: Event, env: Env)
    requires h.fsm.state == ReqOpen || h.fsm.state == Open
    ensures Dispatch(c, h, e, env).sent ==
      if e == CmdClose || (h.fsm.state == Open && e == TimeoutFlow && c.hasFlowMeter) then h.sent + [false] else h.sent
  {
    hide Execute, Settle, Guard;
    var (fsm, t) := Step(c, h.fsm, e);
    ExecuteTells(h.(fsm := fsm), t.actions, env);
  }

  /**
   The protection an open valve loses without being told to close: of all events, the watchdog is
   dropped and no switch-off is sent exactly when the valve became unavailable or was seen off.
   */
  lemma DisarmedWithoutClosing(c: Config, h: Host, e: Event, env: Env)
    requires WellTimed(c, h) && IsOpen(h.fsm.state)
    ensures var after := Dispatch(c, h, e, env);
      (after.watchdog == Off && after.sent == h.sent) <==> e in {ObsUnavailable, ObsSwitchOff}
  {
    hide Execute;
    DispatchSends(c, h, e, env);
  }

  // ---------- A pending command

  /** A pending command whose outcome the armed timer will bring. */
  ghost predicate OnTrack(c: Config, h: Host) {
    && h.completion == Pending
    && (|| (h.expected == Terminals(c, OpenValve)
            && (h.fsm.state == ReqOpen || (c.hasFlowMeter && h.fsm.state == Open)))
        || (h.expected == Terminals(c, CloseValve) && h.fsm.state in {ReqClose, Closed}))
  }

  lemma OnTrackIsTimed(c: Config, h: Host)
    requires WellTimed(c, h) && OnTrack(c, h)
    ensures exists t :: t in h.timers
  {
    assert Awaited(c, h.fsm.state) != {};
  }

  lemma TerminalsDiffer(c: Config)
    ensures Terminals(c, OpenValve) != Terminals(c, CloseValve)
  {
    assert Idle in Terminals(c, CloseValve) && Idle !in Terminals(c, OpenValve);
  }

  /** The states in which a command begins a wait that no timer of its own ends. */
  predicate BeginsAdrift(s: State, cmd: Command) {
    s == Unreachable || (cmd == OpenValve && (s == ReqClose || s == Closed))
  }

  /** A command is settled at once or set on track, except exactly from those states. */
  lemma BeginOutcome(c: Config, h: Host, cmd: Command, levelMatches: bool, env: Env)
    requires TimersFit(c, h)
    ensures var after := Begin(c, h, cmd, levelMatches, env);
      (after.completion.Done? || OnTrack(c, after)) <==> !BeginsAdrift(h.fsm.state, cmd)
  {
    TerminalsDiffer(c);
  }

  /** What throws a pending command off track: the two transitions that leave it unsettled. */
  predicate Derails(c: Config, h: Host, input: Input) {
    || input == Notice(ObsUnavailable)
    || (h.expected == Terminals(c, OpenValve) && h.fsm.state == Open && input == Notice(ObsSwitchOff))
  }

  /**
   One observation or expiry keeps a command on track or settles it, except exactly for those
   two, which leave it pending with no timer running. An expiry always settles it.
   */
  lemma TrackedStep(c: Config, h: Host, m: Moment)
    requires WellTimed(c, h) && OnTrack(c, h) && Enabled(h, m)
    requires m.input.Notice? || m.input.Expire?
    ensures var after := Apply(c, h, m);
      && ((after.completion.Done? || OnTrack(c, after)) <==> !Derails(c, h, m.input))
      && (Derails(c, h, m.input) ==> after.completion == Pending && after.timers == map[])
      && (m.input.Expire? ==> after.completion.Done?)
  {
    hide Execute, Guard;
    TerminalsDiffer(c);
    MomentKeepsTimers(c, h, m);
    assert Apply(c, h, m).timers.Keys == {} ==> Apply(c, h, m).timers == map[];
  }

  /**
   What turns a waiting command into OK, from every state it can wait in: for an open, flow where
   the meter can testify and the switch seen on where there is none; for a close, the switch seen
   off or a dry leak window, but also, while unreachable, the valve becoming available again.
   */
  lemma OkNeedsEvidence(c: Config, h: Host, cmd: Command, m: Moment)
    requires WellTimed(c, h) && Enabled(h, m) && (m.input.Notice? || m.input.Expire?)
    requires h.completion == Pending && h.expected == Terminals(c, cmd)
    requires h.fsm.state !in h.expected && h.fsm.state != Maintenance
    ensures var e := if m.input.Notice? then m.input.event else h.timers[m.input.timer];
      Apply(c, h, m).completion == Done(Ok) <==>
        match cmd
        case OpenValve =>
          (h.fsm.state == ReqOpen && !c.hasFlowMeter && e == ObsSwitchOn)
          || (h.fsm.state == Open && (e == ObsFlowPositive || e == FlowUnverifiable))
        case CloseValve =>
          (h.fsm.state == ReqClose && !c.hasFlowMeter && e == ObsSwitchOff)
          || (h.fsm.state in {Open, OpenVerified} && e == ObsSwitchOff)
          || (h.fsm.state == Closed && e == ObsFlowZero)
          || (h.fsm.state == Unreachable && e == ObsAvailable)
  {
    hide Execute, Guard;
    if m.input.Notice? { OkOnEvent(c, h, cmd, m.input.event); } else { OkOnEvent(c, h, cmd, h.timers[m.input.timer]); }
  }

  lemma OkOnEvent(c: Config, h: Host, cmd: Command, e: Event)
    requires !c.hasFlowMeter ==> h.fsm.state !in {OpenVerified, Closed}
    requires External(e) || exists t :: t in Awaited(c, h.fsm.state) && e in Expiries(t)
    requires h.fsm.state !in Terminals(c, cmd) && h.fsm.state != Maintenance
    ensures var t := Step(c, h.fsm, e).1;
      Settle(Pending, Terminals(c, cmd), t) == Done(Ok) <==>
        match cmd
        case OpenValve =>
          (h.fsm.state == ReqOpen && !c.hasFlowMeter && e == ObsSwitchOn)
          || (h.fsm.state == Open && (e == ObsFlowPositive || e == FlowUnverifiable))
        case CloseValve =>
          (h.fsm.state == ReqClose && !c.hasFlowMeter && e == ObsSwitchOff)
          || (h.fsm.state in {Open, OpenVerified} && e == ObsSwitchOff)
          || (h.fsm.state == Closed && e == ObsFlowZero)
          || (h.fsm.state == Unreachable && e == ObsAvailable)
  {
  }

  /** A run that only observes, expires and guards, and never derails the command on track. */
  ghost predicate Smooth(c: Config, h: Host, moments: seq<Moment>)
    requires IsRun(c, h, moments)
    decreases |moments|
  {
    moments == [] ||
    (&& (moments[0].input.Notice? || moments[0].input.Expire? || moments[0].input.WatchdogFires?)
     && (OnTrack(c, h) ==> !Derails(c, h, moments[0].input))
     && Smooth(c, Apply(c, h, moments[0]), moments[1..]))
  }

  /** A settled command stays settled, and the watchdog disturbs no pending one. */
  lemma SettledStays(c: Config, h: Host, m: Moment)
    requires Enabled(h, m) && (m.input.Notice? || m.input.Expire? || m.input.WatchdogFires?)
    ensures h.completion.Done? ==> Apply(c, h, m).completion == h.completion
    ensures OnTrack(c, h) ==> !h.completion.Done? && (m.input.WatchdogFires? ==> OnTrack(c, Apply(c, h, m)))
  {
    hide Execute, Step, Guard;
  }

  /**
   Progress: on a smooth run a command on track is settled or still on track, hence still timed,
   and the first expiry settles it for good.
   */
  lemma {:induction false} CommandsProgress(c: Config, h: Host, moments: seq<Moment>)
    requires WellTimed(c, h) && (OnTrack(c, h) || h.completion.Done?)
    requires IsRun(c, h, moments) && Smooth(c, h, moments)
    ensures var after := After(c, h, moments);
      && (after.completion.Done? || (OnTrack(c, after) && exists t :: t in after.timers))
      && ((exists i :: 0 <= i < |moments| && moments[i].input.Expire?) && OnTrack(c, h) ==> after.completion.Done?)
      && (h.completion.Done? ==> after.completion == h.completion)
    decreases |moments|
  {
    hide Apply, OnTrack, Derails, WellTimed;
    if moments == [] {
      if OnTrack(c, h) { OnTrackIsTimed(c, h); }
    } else {
      var m := moments[0];
      MomentKeepsTimers(c, h, m);
      SettledStays(c, h, m);
      if OnTrack(c, h) && !m.input.WatchdogFires? { TrackedStep(c, h, m); }
      CommandsProgress(c, Apply(c, h, m), moments[1..]);
      if i :| 0 <= i < |moments| && moments[i].input.Expire? {
        assert i > 0 ==> moments[1..][i - 1] == moments[i];
      }
    }
  }

  // ---------- The failure counter along a command

  ghost predicate LockedAtMaximum(c: Config, f: Fsm) {
    && f.failureCount <= c.maxConsecutiveFailures
    && (f.state == Maintenance <==> f.failureCount == c.maxConsecutiveFailures)
  }

  /**
   A cycle begun with the counter at `n`: while the command waits the counter is untouched or
   the wait is adrift, and a failure that settles it has moved the counter by exactly one.
   */
  ghost predicate InCycle(c: Config, h: Host, n: nat) {
    && WellTimed(c, h) && LockedAtMaximum(c, h.fsm)
    && match h.completion
       case NoCommand => false
       case Pending => h.fsm.state != Maintenance && (h.fsm.failureCount == n || h.fsm.state in {Idle, Unreachable})
       case Done(Ok) => h.fsm.state in h.expected
       case Done(FailedWith(_)) => h.fsm.state == Idle && h.fsm.failureCount == n + 1
       case Done(Locked(why)) => h.fsm.state == Maintenance && why.Some? && h.fsm.failureCount == n + 1
  }

  lemma DispatchKeepsLocking(c: Config, h: Host, e: Event, env: Env)
    requires c.maxConsecutiveFailures > 0 && LockedAtMaximum(c, h.fsm)
    ensures LockedAtMaximum(c, Dispatch(c, h, e, env).fsm)
  {
  }

  /** A command, and its confirmation by level, fail nothing. */
  lemma CommandFailsNothing(c: Config, h: Host, cmd: Command, env: Env)
    requires h.completion == Pending && h.fsm.state != Maintenance
    ensures var after := Dispatch(c, h, EventOf(cmd), env);
      && after.fsm.failureCount == h.fsm.failureCount && after.fsm.state != Maintenance
      && (after.completion == Pending || (after.completion == Done(Ok) && after.fsm.state in h.expected))
  {
    hide Execute;
  }

  lemma ConfirmationFailsNothing(c: Config, h: Host, cmd: Command, env: Env)
    requires h.completion == Pending && h.fsm.state != Maintenance
    ensures var after := Dispatch(c, h, Confirmation(cmd), env);
      && (after.fsm.failureCount == h.fsm.failureCount || after.fsm.state == Idle)
      && after.fsm.state != Maintenance
      && (after.completion == Pending || (after.completion == Done(Ok) && after.fsm.state in h.expected))
  {
    hide Execute;
  }

  lemma CycleBegins(c: Config, h: Host, cmd: Command, levelMatches: bool, env: Env)
    requires c.maxConsecutiveFailures > 0 && WellTimed(c, h) && LockedAtMaximum(c, h.fsm)
    requires h.fsm.state != Maintenance
    ensures InCycle(c, Begin(c, h, cmd, levelMatches, env), h.fsm.failureCount)
  {
    BeginKeepsTimers(c, h, cmd, levelMatches, env);
    var h' := h.(expected := Terminals(c, cmd), completion := Pending);
    var started := Dispatch(c, h', EventOf(cmd), env);
    DispatchKeepsLocking(c, h', EventOf(cmd), env);
    CommandFailsNothing(c, h', cmd, env);
    if started.completion == Pending && levelMatches {
      DispatchKeepsLocking(c, started, Confirmation(cmd), env);
      ConfirmationFailsNothing(c, started, cmd, env);
    }
  }

  lemma CycleContinues(c: Config, h: Host, m: Moment, n: nat)
    requires c.maxConsecutiveFailures > 0
    requires InCycle(c, h, n) && h.completion == Pending && Enabled(h, m)
    requires m.input.Notice? || m.input.Expire? || m.input.WatchdogFires?
    ensures InCycle(c, Apply(c, h, m), n)
  {
    hide Execute, Guard;
    MomentKeepsTimers(c, h, m);
    if m.input.Notice? { DispatchKeepsLocking(c, h, m.input.event, m.env); }
    if m.input.Expire? {
      DispatchKeepsLocking(c, h.(timers := h.timers - {m.input.timer}), h.timers[m.input.timer], m.env);
    }
  }

  /** Between attempts nothing touches the counter or brings the machine back to work. */
  lemma BackoffIsQuiet(c: Config, h: Host, m: Moment)
    requires WellTimed(c, h) && h.fsm.state in {Idle, Unreachable} && h.completion != Pending && Enabled(h, m)
    requires m.input.Notice? || m.input.Expire? || m.input.WatchdogFires?
    ensures var after := Apply(c, h, m);
      && WellTimed(c, after) && after.fsm.state in {Idle, Unreachable}
      && after.fsm.failureCount == h.fsm.failureCount && after.completion == h.completion
  {
    MomentKeepsTimers(c, h, m);
  }

  /** A close told to an idle machine does nothing, and reports OK without any confirmation. */
  lemma CloseFromIdleReportsOk(c: Config, h: Host, levelMatches: bool, env: Env)
    requires h.fsm.state == Idle
    ensures Begin(c, h, CloseValve, levelMatches, env)
         == h.(expected := {Idle}, completion := Done(Ok), watchdog := Off)
  {
    assert Step(c, h.fsm, CmdClose).1.actions == [];
  }

  lemma CloseTimesOut(c: Config, h: Host, env: Env)
    requires TimersFit(c, h) && h.fsm.state == ReqClose && h.completion == Pending
    requires h.fsm.failureCount + 1 < c.maxConsecutiveFailures
    ensures CloseTimer in h.timers
    ensures var failed := Apply(c, h, Moment(Expire(CloseTimer), env));
      && failed.fsm.state == Idle && failed.sent == h.sent
      && failed.completion == Done(FailedWith(CloseVerificationFailed))
  {
    assert CloseTimer in Awaited(c, ReqClose);
    assert h.timers[CloseTimer] in Expiries(CloseTimer);
    hide Execute;
    DispatchSends(c, h.(timers := h.timers - {CloseTimer}), TimeoutClose, env);
  }

  /**
   So a close whose confirmation never came, short of locking the valve, is reported OK by its
   first retry: the failure is retryable, and the retry sends nothing.
   */
  lemma CloseRetryReportsOk(c: Config, h: Host, timeout: Env, levelMatches: bool, retry: Env)
    requires TimersFit(c, h) && h.fsm.state == ReqClose && h.completion == Pending
    requires h.fsm.failureCount + 1 < c.maxConsecutiveFailures
    ensures CloseTimer in h.timers
    ensures var failed := Apply(c, h, Moment(Expire(CloseTimer), timeout));
      var again := Begin(c, failed, CloseValve, levelMatches, retry);
      && failed.completion.Done? && IsRetryable(failed.completion.result)
      && again.completion == Done(Ok) && again.sent == h.sent
  {
    CloseTimesOut(c, h, timeout);
    CloseFromIdleReportsOk(c, Apply(c, h, Moment(Expire(CloseTimer), timeout)), levelMatches, retry);
  }

  /** A close reported OK by mere availability: the valve dropped off while closing, and came back. */
  lemma UnavailableWhileClosingReportsOk(c: Config, h: Host, gone: Env, back: Env)
    requires h.fsm.state in {ReqClose, Closed} && h.completion == Pending && h.expected == Terminals(c, CloseValve)
    ensures var away := Apply(c, h, Moment(Notice(ObsUnavailable), gone));
      var after := Apply(c, away, Moment(Notice(ObsAvailable), back));
      after.completion == Done(Ok) && after.fsm.state == Idle && after.sent == h.sent
  {
    DispatchSends(c, h, ObsUnavailable, gone);
    DispatchSends(c, Dispatch(c, h, ObsUnavailable, gone), ObsAvailable, back);
    hide Execute, Guard;
  }

  /** And a close begun while unreachable, for which the actuator is never told anything at all. */
  lemma CloseFromUnreachableReportsOk(c: Config, h: Host, levelMatches: bool, env: Env, back: Env)
    requires h.fsm.state == Unreachable
    ensures var begun := Begin(c, h, CloseValve, levelMatches, env);
      var after := Apply(c, begun, Moment(Notice(ObsAvailable), back));
      begun.completion == Pending && after.completion == Done(Ok) && after.sent == h.sent
  {
    CommandSends(c, h, CloseValve, levelMatches, env);
    DispatchSends(c, Begin(c, h, CloseValve, levelMatches, env), ObsAvailable, back);
    BegunUnreachable(c, h, levelMatches, env);
    hide Execute, Guard, Begin;
  }

  lemma BegunUnreachable(c: Config, h: Host, levelMatches: bool, env: Env)
    requires h.fsm.state == Unreachable
    ensures var begun := Begin(c, h, CloseValve, levelMatches, env);
      begun.fsm == h.fsm && begun.completion == Pending && begun.expected == Terminals(c, CloseValve)
  {
    hide Execute, Guard;
  }
}
