/**
 The controller's metered delivery and the irrigation cycle around it: polling a cumulative
 counter that may fall silent or be reset, crediting the zone live from its snapshot, and
 settling every zone that received water exactly once.

 What the meter is worth is stated against the water that really flowed, poll by poll.
 */
module Delivery {
  import opened Rounding
  import opened Wrappers
  import opened Zone

  const FLOW_METER_POLL_INTERVAL_S := 2

  /**
   One turn of the loop: a stop request before it, what reaches the zone during the sleep, then the
   valve's state and the counter.
   */
  datatype Poll = Poll(abort: bool, meanwhile: seq<CycleEvent>, closedExternally: bool, readingL: Option<real>)

  // ---------- What the counter is taken to say

  /** The reading the delivery is measured from, and the litres delivered so far. */
  datatype Meter = Meter(initialL: real, deliveredL: real)

  function Heard(p: Poll): Option<real> {
    if p.closedExternally then None else p.readingL
  }

  /** A reading below the baseline is a reset: the baseline becomes zero. */
  function Read(m: Meter, reading: Option<real>): Meter {
    match reading
    case None => m
    case Some(x) => if x - m.initialL < 0.0 then Meter(0.0, x) else Meter(m.initialL, x - m.initialL)
  }

  function Metered(initialL: real, polls: seq<Poll>): Meter {
    if polls == [] then Meter(initialL, 0.0)
    else Read(Metered(initialL, polls[..|polls| - 1]), Heard(polls[|polls| - 1]))
  }

  // ---------- The water that really flowed

  /**
   What happened in the pipe between two polls: the litres that flowed, and, if the counter was
   reset in between, however often, the part of them it shows since.
   */
  datatype Flow = Flow(liters: real, shownSinceReset: Option<real>)

  predicate Physical(f: Flow) {
    f.liters >= 0.0 && (f.shownSinceReset.Some? ==> 0.0 <= f.shownSinceReset.value <= f.liters)
  }

  function Total(flows: seq<Flow>): real {
    if flows == [] then 0.0 else Total(flows[..|flows| - 1]) + flows[|flows| - 1].liters
  }

  function Counter(initialL: real, flows: seq<Flow>): real {
    if flows == [] then initialL
    else
      var last := flows[|flows| - 1];
      if last.shownSinceReset.Some? then last.shownSinceReset.value
      else Counter(initialL, flows[..|flows| - 1]) + last.liters
  }

  ghost predicate NeverReset(flows: seq<Flow>) {
    forall i :: 0 <= i < |flows| ==> flows[i].shownSinceReset.None?
  }

  /** Whatever the polls heard is what the counter showed; they may hear nothing at all. */
  ghost predicate Witnessed(initialL: real, polls: seq<Poll>, flows: seq<Flow>) {
    && |polls| == |flows|
    && (forall i :: 0 <= i < |flows| ==> Physical(flows[i]))
    && (forall i :: 0 <= i < |polls| && Heard(polls[i]).Some? ==>
          Heard(polls[i]).value == Counter(initialL, flows[..i + 1]))
  }

  lemma WitnessedPrefix(initialL: real, polls: seq<Poll>, flows: seq<Flow>)
    requires Witnessed(initialL, polls, flows) && polls != []
    ensures Witnessed(initialL, polls[..|polls| - 1], flows[..|flows| - 1])
  {
    var n := |polls| - 1;
    forall i | 0 <= i < n && Heard(polls[i]).Some?
      ensures Heard(polls[i]).value == Counter(initialL, flows[..n][..i + 1])
    {
      assert flows[..n][..i + 1] == flows[..i + 1];
    }
  }

  /** What any number of gaps and resets can do to the measurement. */
  lemma {:induction false} MeterInvariant(initialL: real, polls: seq<Poll>, flows: seq<Flow>)
    requires initialL >= 0.0 && Witnessed(initialL, polls, flows)
    ensures Total(flows) >= 0.0 && Counter(initialL, flows) >= 0.0
    ensures if NeverReset(flows) then Counter(initialL, flows) == initialL + Total(flows)
            else Counter(initialL, flows) <= Total(flows)
    ensures var m := Metered(initialL, polls);
      && 0.0 <= m.deliveredL <= Total(flows)
      && (m.initialL == initialL || (m.initialL == 0.0 && !NeverReset(flows)))
  {
    if polls != [] {
      var n := |polls| - 1;
      WitnessedPrefix(initialL, polls, flows);
      MeterInvariant(initialL, polls[..n], flows[..n]);
      assert flows[..n + 1] == flows;
      assert NeverReset(flows) ==> NeverReset(flows[..n]);
      if NeverReset(flows[..n]) && flows[n].shownSinceReset.None? {
        assert NeverReset(flows);
      }
    }
  }

  /** The meter never credits more than the water that flowed, through any gaps and resets. */
  lemma NeverOverCredited(initialL: real, polls: seq<Poll>, flows: seq<Flow>)
    requires initialL >= 0.0 && Witnessed(initialL, polls, flows)
    ensures 0.0 <= Metered(initialL, polls).deliveredL <= Total(flows)
  {
    MeterInvariant(initialL, polls, flows);
  }

  /** Without a reset, and however many polls heard nothing before the last, it is exact. */
  lemma ExactWithoutReset(initialL: real, polls: seq<Poll>, flows: seq<Flow>)
    requires initialL >= 0.0 && Witnessed(initialL, polls, flows) && NeverReset(flows)
    requires polls != [] && Heard(polls[|polls| - 1]).Some?
    ensures Metered(initialL, polls).deliveredL == Total(flows)
  {
    var n := |polls| - 1;
    WitnessedPrefix(initialL, polls, flows);
    MeterInvariant(initialL, polls[..n], flows[..n]);
    MeterInvariant(initialL, polls, flows);
    assert flows[..n + 1] == flows && NeverReset(flows[..n]);
  }

  // ---------- The session

  /** A meter that measured nothing is replaced by the estimate, when there is a rate for one. */
  function Fallback(rateLpm: real, elapsedS: int, measuredL: real): real {
    if measuredL > 0.0 || elapsedS <= 0 || rateLpm <= 0.0 then measuredL
    else rateLpm * elapsedS as real / 60.0
  }

  /** The poll ends the session: the valve is shut, or its reading reaches the target. */
  predicate Ends(initialL: real, polls: seq<Poll>, targetL: real, n: nat)
    requires n < |polls|
  {
    polls[n].closedExternally ||
    (polls[n].readingL.Some? && Metered(initialL, polls[..n + 1]).deliveredL >= targetL)
  }

  /** How many polls a session takes, once `n` are done. */
  function Polled(initialL: real, polls: seq<Poll>, timeoutS: int, targetL: real, n: nat): (r: nat)
    requires n <= |polls|
    ensures n <= r <= |polls|
    decreases |polls| - n
  {
    if FLOW_METER_POLL_INTERVAL_S * n >= timeoutS || n == |polls| || polls[n].abort then n
    else if Ends(initialL, polls, targetL, n) then n + 1
    else Polled(initialL, polls, timeoutS, targetL, n + 1)
  }

  /**
   The session ends within the timeout rounded up to one poll; short of that it ends at the first
   stop request, or with the first poll that ends it, and at no other.
   */
  lemma {:induction false} SessionEndsOnTime(initialL: real, polls: seq<Poll>, timeoutS: int, targetL: real, n: nat)
    requires n <= |polls| && FLOW_METER_POLL_INTERVAL_S * |polls| >= timeoutS
    ensures var r := Polled(initialL, polls, timeoutS, targetL, n);
      && (r > n ==> FLOW_METER_POLL_INTERVAL_S * r <= timeoutS + 1)
      && (|| FLOW_METER_POLL_INTERVAL_S * r >= timeoutS
          || (r < |polls| && polls[r].abort)
          || (r > n && (polls[r - 1].closedExternally
                        || (polls[r - 1].readingL.Some? && Metered(initialL, polls[..r]).deliveredL >= targetL))))
      && (forall i :: n <= i < r ==> !polls[i].abort)
      && (forall i :: n <= i < r - 1 ==>
            && !polls[i].closedExternally
            && (polls[i].readingL.Some? ==> Metered(initialL, polls[..i + 1]).deliveredL < targetL))
    decreases |polls| - n
  {
    if !(FLOW_METER_POLL_INTERVAL_S * n >= timeoutS || n == |polls| || polls[n].abort)
       && !Ends(initialL, polls, targetL, n) {
      SessionEndsOnTime(initialL, polls, timeoutS, targetL, n + 1);
    }
  }

  /** The zone after some polls: what reached it meanwhile, and a live credit for each reading. */
  function LiveZone(z: State, initialL: real, polls: seq<Poll>): State {
    if polls == [] then z
    else
      var last := polls[|polls| - 1];
      var slept := AfterAll(LiveZone(z, initialL, polls[..|polls| - 1]), last.meanwhile);
      if Heard(last).None? then slept else CreditedLive(slept, Metered(initialL, polls).deliveredL)
  }

  /** The same as one sequence of events. */
  function LiveEvents(initialL: real, polls: seq<Poll>): seq<CycleEvent> {
    if polls == [] then []
    else
      var last := polls[|polls| - 1];
      LiveEvents(initialL, polls[..|polls| - 1]) + last.meanwhile
      + if Heard(last).None? then [] else [LiveCredit(Metered(initialL, polls).deliveredL)]
  }

  lemma {:induction false} LiveZoneIsEvents(z: State, initialL: real, polls: seq<Poll>)
    ensures LiveZone(z, initialL, polls) == AfterAll(z, LiveEvents(initialL, polls))
  {
    if polls != [] {
      var before, last := polls[..|polls| - 1], polls[|polls| - 1];
      LiveZoneIsEvents(z, initialL, before);
      var slept := LiveEvents(initialL, before) + last.meanwhile;
      AfterBoth(z, LiveEvents(initialL, before), last.meanwhile);
      OneLiveCredit(AfterAll(z, slept), Metered(initialL, polls).deliveredL);
      if Heard(last).Some? { AfterBoth(z, slept, [LiveCredit(Metered(initialL, polls).deliveredL)]); }
      assert slept + [] == slept;
    }
  }

  ghost predicate AnyHeard(polls: seq<Poll>) {
    exists p :: p in polls && Heard(p).Some?
  }

  /** What has reached the zone since the last reading. */
  function SinceReading(polls: seq<Poll>): seq<CycleEvent> {
    if polls == [] || Heard(polls[|polls| - 1]).Some? then []
    else SinceReading(polls[..|polls| - 1]) + polls[|polls| - 1].meanwhile
  }

  /**
   Inside a cycle all the live credits of a session, and whatever came between them, amount to one
   credit of what the meter says in the end, and what has come since its last reading.
   */
  lemma {:induction false} LiveCreditsAreOne(z: State, initialL: real, polls: seq<Poll>)
    requires z.baselineMm.Some? && z.areaM2 > 0.0
    ensures LiveZone(z, initialL, polls)
         == AfterAll(if AnyHeard(polls) then CreditedLive(z, Metered(initialL, polls).deliveredL) else z,
                     SinceReading(polls))
  {
    if polls != [] {
      var n := |polls| - 1;
      var last := polls[n];
      assert last in polls && forall p :: p in polls ==> p in polls[..n] || p == last;
      hide Happened, Metered, CreditedLive;
      if Heard(last).Some? {
        LiveZoneIsEvents(z, initialL, polls[..n]);
        AfterBoth(z, LiveEvents(initialL, polls[..n]), last.meanwhile);
        LiveCreditStartsOver(z, LiveEvents(initialL, polls[..n]) + last.meanwhile, Metered(initialL, polls).deliveredL);
      } else {
        LiveCreditsAreOne(z, initialL, polls[..n]);
        assert Metered(initialL, polls) == Metered(initialL, polls[..n]) by { UnheardPoll(initialL, polls); }
        var start := if AnyHeard(polls) then CreditedLive(z, Metered(initialL, polls).deliveredL) else z;
        AfterBoth(start, SinceReading(polls[..n]), last.meanwhile);
      }
    }
  }

  lemma UnheardPoll(initialL: real, polls: seq<Poll>)
    requires polls != [] && Heard(polls[|polls| - 1]).None?
    ensures Metered(initialL, polls) == Metered(initialL, polls[..|polls| - 1])
  {
  }

  /** The polling loop. The surroundings supply at least as many polls as the timeout allows. */
  method DeliverFlowMeter(zone: Zone, initialL: real, polls: seq<Poll>, timeoutS: int, targetL: real, rateLpm: real)
    returns (liters: real, elapsedS: nat)
    requires FLOW_METER_POLL_INTERVAL_S * |polls| >= timeoutS
    modifies zone`deficit, zone`measured, zone.counters`sessionWaterL
    ensures elapsedS == FLOW_METER_POLL_INTERVAL_S * Polled(initialL, polls, timeoutS, targetL, 0)
    ensures var heard := polls[..Polled(initialL, polls, timeoutS, targetL, 0)];
      && liters == Fallback(rateLpm, elapsedS, Metered(initialL, heard).deliveredL)
      && zone.Value() == LiveZone(old(zone.Value()), initialL, heard)
  {
    hide AfterAll, CreditedLive, Zone.Value, WaterCounters.Value;
    var baseline, delivered := initialL, 0.0;
    elapsedS := 0;
    ghost var n := 0;
    while elapsedS < timeoutS
      invariant elapsedS == FLOW_METER_POLL_INTERVAL_S * n && n <= |polls|
      invariant Metered(initialL, polls[..n]) == Meter(baseline, delivered)
      invariant zone.Value() == LiveZone(old(zone.Value()), initialL, polls[..n])
      invariant Polled(initialL, polls, timeoutS, targetL, 0) == Polled(initialL, polls, timeoutS, targetL, n)
    {
      var poll := polls[elapsedS / FLOW_METER_POLL_INTERVAL_S];
      if poll.abort {
        break;
      }
      assert polls[..n + 1][..n] == polls[..n];
      elapsedS := elapsedS + FLOW_METER_POLL_INTERVAL_S;
      n := n + 1;
      zone.HappenAll(poll.meanwhile);
      if poll.closedExternally {
        break;
      }
      if poll.readingL.None? {
        continue;
      }
      delivered := poll.readingL.value - baseline;
      if delivered < 0.0 {
        baseline, delivered := 0.0, poll.readingL.value;
      }
      zone.UpdateRealtime(delivered);
      if delivered >= targetL {
        break;
      }
    }
    liters := Fallback(rateLpm, elapsedS, delivered);
  }

  // ---------- The irrigation cycle

  /**
   What one zone's turn meets: its hardware, its polls, what reaches it between its delivery and the
   end of the run, and whether the run goes on after it.
   */
  datatype Turn = Turn(hasValve: bool, opens: bool, initialL: real, polls: seq<Poll>, timeoutS: int, rateLpm: real,
                       afterwards: seq<CycleEvent>, stopRequested: bool, raises: bool, settledAt: Stamp, durationS: int)

  /** An entry of the list of zones that received water. */
  datatype Record = Record(deliveredL: real, targetL: real)

  ghost predicate EnoughPolls(t: Turn) {
    FLOW_METER_POLL_INTERVAL_S * |t.polls| >= t.timeoutS
  }

  predicate Waters(z: State, t: Turn) {
    t.hasValve && DemandL(z) > 0.0
  }

  function HeardPolls(t: Turn, targetL: real): seq<Poll> {
    t.polls[..Polled(t.initialL, t.polls, t.timeoutS, targetL, 0)]
  }

  /** The figure a turn reports: nothing when the valve refused to open. */
  function DeliveredL(t: Turn, targetL: real): real {
    var heard := HeardPolls(t, targetL);
    if !t.opens then 0.0
    else Fallback(t.rateLpm, FLOW_METER_POLL_INTERVAL_S * |heard|, Metered(t.initialL, heard).deliveredL)
  }

  function DuringTurn(z: State, t: Turn): State {
    if !Waters(z, t) then z
    else if !t.opens then AfterAll(Begun(z), t.afterwards)
    else AfterAll(LiveZone(Begun(z), t.initialL, HeardPolls(t, DemandL(z))), t.afterwards)
  }

  function RecordOf(z: State, t: Turn): Option<Record> {
    if Waters(z, t) && !t.raises && DeliveredL(t, DemandL(z)) > 0.0
    then Some(Record(DeliveredL(t, DemandL(z)), DemandL(z)))
    else None
  }

  /** The run ends with this turn: a stop was requested, or the delivery raised. */
  predicate Halts(z: State, t: Turn) {
    t.stopRequested || (Waters(z, t) && t.raises)
  }

  function Settling(z: State, r: Record, source: string, t: Turn): State {
    if r.deliveredL >= r.targetL
    then MarkedIrrigated(z, Some(r.deliveredL), source, t.settledAt, Some(t.durationS))
    else Settled(z, r.deliveredL, source, t.settledAt, t.durationS)
  }

  function SettlingIfAny(z: State, r: Option<Record>, source: string, t: Turn): State {
    if r.Some? then Settling(z, r.value, source, t) else z
  }

  function AfterTurn(z: State, t: Turn, source: string): State {
    SettlingIfAny(DuringTurn(z, t), RecordOf(z, t), source, t).(baselineMm := None)
  }

  method TakeTurn(zone: Zone, t: Turn) returns (record: Option<Record>, halts: bool)
    requires EnoughPolls(t)
    modifies zone, zone.counters
    ensures zone.Value() == DuringTurn(old(zone.Value()), t)
    ensures record == RecordOf(old(zone.Value()), t)
    ensures halts <==> Halts(old(zone.Value()), t)
  {
    if !t.hasValve {
      return None, t.stopRequested;
    }
    var target := zone.WaterDemandL();
    if target <= 0.0 {
      return None, t.stopRequested;
    }
    zone.BeginCycle();
    var delivered := 0.0;
    if t.opens {
      var elapsed;
      delivered, elapsed := DeliverFlowMeter(zone, t.initialL, t.polls, t.timeoutS, target, t.rateLpm);
    }
    zone.HappenAll(t.afterwards);
    record := if !t.raises && delivered > 0.0 then Some(Record(delivered, target)) else None;
    halts := t.stopRequested || t.raises;
  }

  method SettleTurn(zone: Zone, r: Record, source: string, t: Turn)
    modifies zone, zone.counters
    ensures zone.Value() == Settling(old(zone.Value()), r, source, t)
  {
    if r.deliveredL >= r.targetL {
      zone.MarkIrrigated(Some(r.deliveredL), source, t.settledAt, Some(t.durationS));
    } else {
      zone.Settle(r.deliveredL, source, t.settledAt, t.durationS);
    }
  }

  ghost predicate Separate(zones: seq<Zone>) {
    forall i, j :: 0 <= i < j < |zones| ==> zones[i] != zones[j] && zones[i].counters != zones[j].counters
  }

  ghost function Objects(zones: seq<Zone>): set<object> {
    (set i | 0 <= i < |zones| :: zones[i]) + (set i | 0 <= i < |zones| :: zones[i].counters)
  }

  ghost function Values(zones: seq<Zone>): (r: seq<State>)
    reads Objects(zones)
    ensures |r| == |zones|
    ensures forall i :: 0 <= i < |zones| ==> r[i] == zones[i].Value()
  {
    seq(|zones|, i requires 0 <= i < |zones| reads Objects(zones) => zones[i].Value())
  }

  /** The zones in their order, each given its turn until one halts the run. */
  method TakeTurns(zones: seq<Zone>, turns: seq<Turn>) returns (visited: nat, records: seq<Option<Record>>)
    requires |turns| == |zones| && Separate(zones)
    requires forall i :: 0 <= i < |turns| ==> EnoughPolls(turns[i])
    modifies Objects(zones)
    ensures visited == |records| <= |zones|
    ensures forall i :: 0 <= i < visited ==>
      Values(zones)[i] == DuringTurn(old(Values(zones))[i], turns[i])
      && records[i] == RecordOf(old(Values(zones))[i], turns[i])
    ensures forall i :: visited <= i < |zones| ==> Values(zones)[i] == old(Values(zones))[i]
    ensures forall i :: 0 <= i < visited - 1 ==> !Halts(old(Values(zones))[i], turns[i])
    ensures visited < |zones| ==> visited > 0 && Halts(old(Values(zones))[visited - 1], turns[visited - 1])
  {
    hide DuringTurn, RecordOf, Halts, Zone.Value, WaterCounters.Value;
    ghost var before := Values(zones);
    records := [];
    var halted := false;
    visited := 0;
    while visited < |zones| && !halted
      invariant visited == |records| <= |zones|
      invariant forall i :: 0 <= i < visited ==>
        zones[i].Value() == DuringTurn(before[i], turns[i]) && records[i] == RecordOf(before[i], turns[i])
      invariant forall i :: visited <= i < |zones| ==> zones[i].Value() == before[i]
      invariant forall i :: 0 <= i < visited - 1 ==> !Halts(before[i], turns[i])
      invariant if visited == 0 then !halted else halted <==> Halts(before[visited - 1], turns[visited - 1])
      decreases |zones| - visited
    {
      var record;
      record, halted := TakeTurn(zones[visited], turns[visited]);
      records := records + [record];
      visited := visited + 1;
    }
  }

  /** The zones that received water, settled in turn. */
  method SettleRecords(zones: seq<Zone>, records: seq<Option<Record>>, turns: seq<Turn>, source: string)
    requires |records| <= |zones| == |turns| && Separate(zones)
    modifies Objects(zones)
    ensures forall i :: 0 <= i < |records| ==>
      Values(zones)[i] == SettlingIfAny(old(Values(zones))[i], records[i], source, turns[i])
    ensures forall i :: |records| <= i < |zones| ==> Values(zones)[i] == old(Values(zones))[i]
  {
    hide Settling, Zone.Value, WaterCounters.Value;
    ghost var before := Values(zones);
    for n := 0 to |records|
      invariant forall i :: 0 <= i < n ==> zones[i].Value() == SettlingIfAny(before[i], records[i], source, turns[i])
      invariant forall i :: n <= i < |zones| ==> zones[i].Value() == before[i]
    {
      if records[n].Some? {
        SettleTurn(zones[n], records[n].value, source, turns[n]);
      }
    }
  }

  /** Every snapshot dropped. */
  method EndCycles(zones: seq<Zone>)
    requires Separate(zones)
    modifies Objects(zones)
    ensures forall i :: 0 <= i < |zones| ==> Values(zones)[i] == old(Values(zones))[i].(baselineMm := None)
  {
    ghost var before := Values(zones);
    for n := 0 to |zones|
      invariant forall i :: 0 <= i < n ==> zones[i].Value() == before[i].(baselineMm := None)
      invariant forall i :: n <= i < |zones| ==> zones[i].Value() == before[i]
    {
      zones[n].EndCycle();
    }
  }

  /**
   A run over the zones: turns until one halts it, then, whatever ended it, every zone that
   received water settled and every snapshot dropped. `visited` zones had a turn.
   */
  method IrrigateZones(zones: seq<Zone>, turns: seq<Turn>, source: string) returns (visited: nat)
    requires |turns| == |zones| && Separate(zones)
    requires forall i :: 0 <= i < |turns| ==> EnoughPolls(turns[i])
    modifies Objects(zones)
    ensures visited <= |zones|
    ensures forall i :: 0 <= i < visited ==> Values(zones)[i] == AfterTurn(old(Values(zones))[i], turns[i], source)
    ensures forall i :: visited <= i < |zones| ==> Values(zones)[i] == old(Values(zones))[i].(baselineMm := None)
    ensures forall i :: 0 <= i < visited - 1 ==> !Halts(old(Values(zones))[i], turns[i])
    ensures visited < |zones| ==> visited > 0 && Halts(old(Values(zones))[visited - 1], turns[visited - 1])
  {
    hide DuringTurn, RecordOf, SettlingIfAny, Halts;
    var records;
    visited, records := TakeTurns(zones, turns);
    SettleRecords(zones, records, turns, source);
    EndCycles(zones);
  }

  /**
   End to end: whatever was polled, and whatever reached the zone until the end of the run, a turn
   that reports water is one settlement of the deficit it started from by the figure reported, and
   its counters move once; a turn that reports none moves no counter but the session's.
   */
  lemma TurnIsOneSettlement(z: State, t: Turn, source: string)
    requires z.areaM2 >= 0.0
    ensures var r := RecordOf(z, t);
      && (r.Some? ==>
            AfterTurn(z, t, source) == Settled(Begun(z), r.value.deliveredL, source, t.settledAt, t.durationS))
      && (r.None? ==>
            var after := AfterTurn(z, t, source).counters;
            after == z.counters.(sessionWaterL := after.sessionWaterL))
  {
    if Waters(z, t) {
      DemandNeedsArea(z);
      var events := TurnEvents(t, DemandL(z));
      TurnIsEvents(z, t);
      EventsKeepTheCycle(Begun(z), events);
      hide MmFrom, LitersFor, Polled, Metered, CreditedCounters, LiveZone, AfterAll, DuringTurn, TurnEvents;
      if RecordOf(z, t).Some? {
        var r := RecordOf(z, t).value;
        SettleIgnoresInterleaving(z, events, r.deliveredL, source, t.settledAt, t.durationS);
        if r.deliveredL >= r.targetL {
          ClosingBranchesAgree(z, events, r.deliveredL, source, t.settledAt, t.durationS);
        }
      }
    }
  }

  /** Everything that reaches a zone in its turn, its own live credits included. */
  function TurnEvents(t: Turn, targetL: real): seq<CycleEvent> {
    if t.opens then LiveEvents(t.initialL, HeardPolls(t, targetL)) + t.afterwards else t.afterwards
  }

  lemma TurnIsEvents(z: State, t: Turn)
    requires Waters(z, t)
    ensures DuringTurn(z, t) == AfterAll(Begun(z), TurnEvents(t, DemandL(z)))
  {
    if t.opens {
      var heard := HeardPolls(t, DemandL(z));
      hide LiveZone, LiveEvents, AfterAll;
      LiveZoneIsEvents(Begun(z), t.initialL, heard);
      AfterBoth(Begun(z), LiveEvents(t.initialL, heard), t.afterwards);
    }
  }

  /** A zone with a demand has an area and an efficiency. */
  lemma DemandNeedsArea(z: State)
    requires z.areaM2 >= 0.0 && DemandL(z) > 0.0
    ensures z.areaM2 > 0.0 && z.efficiency > 0.0
  {
    if z.areaM2 == 0.0 {
      assert ActingMm(z) * 0.0 / z.efficiency == 0.0;
    }
  }

  lemma OneLiveCredit(z: State, liters: real)
    ensures AfterAll(z, []) == z
    ensures AfterAll(z, [LiveCredit(liters)]) == CreditedLive(z, liters)
  {
    assert [LiveCredit(liters)][..0] == [];
  }

  /**
   And the meter's figure is never better than the water: a turn that reports a measured volume
   leaves at least the deficit that crediting the water which really flowed would leave.
   */
  lemma NeverOverpaid(z: State, t: Turn, source: string, flows: seq<Flow>)
    requires z.areaM2 >= 0.0 && t.initialL >= 0.0
    requires RecordOf(z, t).Some?
    requires Witnessed(t.initialL, HeardPolls(t, DemandL(z)), flows)
    requires Metered(t.initialL, HeardPolls(t, DemandL(z))).deliveredL > 0.0
    ensures RecordOf(z, t).value.deliveredL <= Total(flows)
    ensures AfterTurn(z, t, source).deficit.valueMm >= Credited(Begun(z), Total(flows)).deficit.valueMm
  {
    DemandNeedsArea(z);
    NeverOverCredited(t.initialL, HeardPolls(t, DemandL(z)), flows);
    TurnIsOneSettlement(z, t, source);
    MmMonotone(RecordOf(z, t).value.deliveredL, Total(flows), z.areaM2, z.efficiency);
  }

  lemma MmMonotone(a: real, b: real, areaM2: real, efficiency: real)
    requires a <= b && areaM2 > 0.0 && efficiency > 0.0
    ensures MmFrom(a, areaM2, efficiency) <= MmFrom(b, areaM2, efficiency)
  {
    var d := b - a;
    assert d * efficiency >= 0.0;
    assert b * efficiency == a * efficiency + d * efficiency;
    assert d * efficiency / areaM2 >= 0.0;
    assert b * efficiency / areaM2 == a * efficiency / areaM2 + d * efficiency / areaM2;
  }

  // ---------- What a turn amounts to, in its own terms

  /** A poll that finds the valve shut, or the meter silent, measures nothing. */
  lemma SilentPollMeasuresNothing(initialL: real, polls: seq<Poll>)
    requires polls != [] && (polls[|polls| - 1].closedExternally || polls[|polls| - 1].readingL.None?)
    ensures Metered(initialL, polls) == Metered(initialL, polls[..|polls| - 1])
  {
  }

  /** Otherwise it measures from the baseline, or from zero once the counter has fallen below it. */
  lemma PollMeasures(initialL: real, polls: seq<Poll>, readingL: real)
    requires polls != [] && !polls[|polls| - 1].closedExternally && polls[|polls| - 1].readingL == Some(readingL)
    ensures var before, m := Metered(initialL, polls[..|polls| - 1]), Metered(initialL, polls);
      && m.deliveredL == readingL - m.initialL
      && m.initialL == if readingL < before.initialL then 0.0 else before.initialL
  {
  }

  /** What the meter says at the end of a turn's session, and how long it took. */
  function MeasuredL(z: State, t: Turn): real {
    Metered(t.initialL, t.polls[..Polled(t.initialL, t.polls, t.timeoutS, DemandL(z), 0)]).deliveredL
  }

  function SessionS(z: State, t: Turn): nat {
    FLOW_METER_POLL_INTERVAL_S * Polled(t.initialL, t.polls, t.timeoutS, DemandL(z), 0)
  }

  /** Water is reported: the valve is opened for a demand, nothing raises, and meter or estimate see some. */
  predicate BringsWater(z: State, t: Turn) {
    && t.hasValve && DemandL(z) > 0.0 && t.opens && !t.raises
    && (MeasuredL(z, t) > 0.0 || (SessionS(z, t) > 0 && t.rateLpm > 0.0))
  }

  lemma ReportOfTurn(z: State, t: Turn)
    ensures RecordOf(z, t)
         == if !BringsWater(z, t) then None
            else if MeasuredL(z, t) > 0.0 then Some(Record(MeasuredL(z, t), DemandL(z)))
            else Some(Record(t.rateLpm * SessionS(z, t) as real / 60.0, DemandL(z)))
  {
    hide Polled, Metered, LitersFor, Fallback;
    assert FLOW_METER_POLL_INTERVAL_S * |HeardPolls(t, DemandL(z))| == SessionS(z, t);
    assert Metered(t.initialL, HeardPolls(t, DemandL(z))).deliveredL == MeasuredL(z, t);
    hide HeardPolls, SessionS, MeasuredL;
    FallbackByCases(t.rateLpm, SessionS(z, t), MeasuredL(z, t));
    var f := Fallback(t.rateLpm, SessionS(z, t), MeasuredL(z, t));
    assert t.opens ==> DeliveredL(t, DemandL(z)) == f;
    assert BringsWater(z, t) <==> t.hasValve && DemandL(z) > 0.0 && t.opens && !t.raises && f > 0.0;
    assert RecordOf(z, t) == if BringsWater(z, t) then Some(Record(f, DemandL(z))) else None;
    assert BringsWater(z, t) && MeasuredL(z, t) <= 0.0 ==> f == t.rateLpm * SessionS(z, t) as real / 60.0;
    assert BringsWater(z, t) && MeasuredL(z, t) > 0.0 ==> f == MeasuredL(z, t);
  }

  /** The estimate is the rate times the minutes, and stands in only for a meter that measured nothing. */
  lemma FallbackByCases(rateLpm: real, elapsedS: int, measuredL: real)
    ensures Fallback(rateLpm, elapsedS, measuredL)
         == if measuredL <= 0.0 && elapsedS > 0 && rateLpm > 0.0 then rateLpm * elapsedS as real / 60.0 else measuredL
    ensures elapsedS > 0 && rateLpm > 0.0 ==> rateLpm * elapsedS as real / 60.0 > 0.0
  {
    if elapsedS > 0 && rateLpm > 0.0 { assert rateLpm * elapsedS as real > 0.0; }
  }

  /** Whatever the meter measured is settled, be it short of the target or not. */
  lemma MeasuredIsSettled(z: State, t: Turn, source: string)
    requires z.areaM2 >= 0.0
    requires t.hasValve && DemandL(z) > 0.0 && t.opens && !t.raises && MeasuredL(z, t) > 0.0
    ensures AfterTurn(z, t, source) == Settled(Begun(z), MeasuredL(z, t), source, t.settledAt, t.durationS)
  {
    ReportOfTurn(z, t);
    hide MeasuredL, AfterTurn, RecordOf, Settled;
    TurnIsOneSettlement(z, t, source);
  }

  /** A meter that measured nothing is replaced by the rate times the minutes the session took. */
  lemma EstimateIsSettled(z: State, t: Turn, source: string)
    requires z.areaM2 >= 0.0
    requires t.hasValve && DemandL(z) > 0.0 && t.opens && !t.raises && MeasuredL(z, t) <= 0.0
    requires SessionS(z, t) > 0 && t.rateLpm > 0.0
    ensures AfterTurn(z, t, source)
         == Settled(Begun(z), t.rateLpm * SessionS(z, t) as real / 60.0, source, t.settledAt, t.durationS)
  {
    ReportOfTurn(z, t);
    hide MeasuredL, SessionS, AfterTurn, RecordOf, Settled;
    TurnIsOneSettlement(z, t, source);
  }

  /**
   A turn is settled exactly if it brings water. If it does, the zone is stamped, and its totals have
   grown by the rounded litres; if not, the stamp, the source, the duration and the totals stay.
   */
  lemma TurnCountsExactlyWater(z: State, t: Turn, source: string)
    requires z.areaM2 >= 0.0
    ensures AfterTurn(z, t, source).baselineMm == None
    ensures var after := AfterTurn(z, t, source);
      if BringsWater(z, t)
      then var liters := if MeasuredL(z, t) > 0.0 then MeasuredL(z, t) else t.rateLpm * SessionS(z, t) as real / 60.0;
        && after.counters.totalWaterL == z.counters.totalWaterL + RoundTenth(liters)
        && after.counters.lastVolumeL == RoundTenth(liters) && after.counters.sessionWaterL == 0.0
        && after.lastIrrigated == Some(t.settledAt) && after.lastSource == source && after.lastDurationS == t.durationS
      else
        && after.counters == z.counters.(sessionWaterL := after.counters.sessionWaterL)
        && after.lastIrrigated == z.lastIrrigated && after.lastSource == z.lastSource
        && after.lastDurationS == z.lastDurationS
  {
    if BringsWater(z, t) {
      if MeasuredL(z, t) > 0.0 { MeasuredIsSettled(z, t, source); } else { EstimateIsSettled(z, t, source); }
      hide AfterTurn, MeasuredL, SessionS, RoundTenth, LitersFor, MmFrom;
    } else {
      ReportOfTurn(z, t);
      UnreportedStaysPut(z, t);
      hide MeasuredL, SessionS, DuringTurn, RecordOf;
    }
  }

  lemma UnreportedStaysPut(z: State, t: Turn)
    ensures var during := DuringTurn(z, t);
      && during.counters == z.counters.(sessionWaterL := during.counters.sessionWaterL)
      && during.lastIrrigated == z.lastIrrigated && during.lastSource == z.lastSource
      && during.lastDurationS == z.lastDurationS
  {
    if Waters(z, t) {
      TurnIsEvents(z, t);
      EventsKeepTheCycle(Begun(z), TurnEvents(t, DemandL(z)));
      hide DuringTurn, AfterAll, TurnEvents, LitersFor;
    }
  }

  /** The run goes on to the next zone unless a stop was requested, or the delivery to a zone raised. */
  lemma HaltsExactly(z: State, t: Turn)
    ensures Halts(z, t) <==> t.stopRequested || (t.raises && t.hasValve && DemandL(z) > 0.0)
  {
  }
}
