/**
 The event-driven water balance: a run of clamped ticks as one clamp, the replay of recorded
 temperature and rain that bootstraps a deficit, and when it agrees with the live path.
 */
module WaterBalance {
  import opened Wrappers
  import opened OrderStatistics
  import opened Zone

  // ---------- A run of clamped steps

  /** The deficit after steps of the given sizes, clamped into `[0, dMax]` after each. */
  function Run(d: real, steps: seq<real>, dMax: real): real {
    if steps == [] then d else Clamp(Run(d, steps[..|steps| - 1], dMax) + steps[|steps| - 1], 0.0, dMax)
  }

  function Sum(steps: seq<real>): real {
    if steps == [] then 0.0 else Sum(steps[..|steps| - 1]) + steps[|steps| - 1]
  }

  /** Where the lowest conceivable start, and the highest, would end up. */
  function Low(steps: seq<real>, dMax: real): real
    requires steps != []
  {
    var n := |steps| - 1;
    if n == 0 then 0.0 else Clamp(Low(steps[..n], dMax) + steps[n], 0.0, dMax)
  }

  function High(steps: seq<real>, dMax: real): real
    requires steps != []
  {
    var n := |steps| - 1;
    if n == 0 then dMax else Clamp(High(steps[..n], dMax) + steps[n], 0.0, dMax)
  }

  /** A clamp of a clamp, with a step in between, is a clamp. */
  lemma ClampAfterClamp(x: real, low: real, high: real, step: real, dMax: real)
    requires low <= high && dMax >= 0.0
    ensures Clamp(Clamp(x, low, high) + step, 0.0, dMax)
         == Clamp(x + step, Clamp(low + step, 0.0, dMax), Clamp(high + step, 0.0, dMax))
    ensures 0.0 <= Clamp(low + step, 0.0, dMax) <= Clamp(high + step, 0.0, dMax) <= dMax
  {
  }

  /**
   A whole run of ticks is one clamp of the start plus the sum of the steps, into bounds the steps
   alone decide. The start may lie outside the box: the deficit's setter does not clamp.
   */
  lemma {:induction false} RunIsOneClamp(d: real, steps: seq<real>, dMax: real)
    requires steps != [] && dMax >= 0.0
    ensures Run(d, steps, dMax) == Clamp(d + Sum(steps), Low(steps, dMax), High(steps, dMax))
    ensures 0.0 <= Low(steps, dMax) <= High(steps, dMax) <= dMax
  {
    hide Clamp;
    var n := |steps| - 1;
    if n == 0 {
      assert steps[..0] == [];
    } else {
      RunIsOneClamp(d, steps[..n], dMax);
      ClampAfterClamp(d + Sum(steps[..n]), Low(steps[..n], dMax), High(steps[..n], dMax), steps[n], dMax);
    }
  }

  /** So two starts keep their order and never drift apart, and the lower one gains on the higher. */
  lemma RunsNeverDiverge(d: real, e: real, steps: seq<real>, dMax: real)
    requires dMax >= 0.0 && d <= e
    ensures 0.0 <= Run(e, steps, dMax) - Run(d, steps, dMax) <= e - d
  {
    if steps != [] {
      RunIsOneClamp(d, steps, dMax);
      RunIsOneClamp(e, steps, dMax);
    }
  }

  /** The start is forgotten for good exactly when the two extreme starts have met. */
  lemma StartForgotten(steps: seq<real>, dMax: real)
    requires steps != [] && dMax >= 0.0
    ensures Low(steps, dMax) == High(steps, dMax)
      <==> forall d, e :: Run(d, steps, dMax) == Run(e, steps, dMax)
  {
    forall d { RunIsOneClamp(d, steps, dMax); }
    var d, e := -Sum(steps) - dMax, dMax - Sum(steps);
    RunIsOneClamp(d, steps, dMax);
    RunIsOneClamp(e, steps, dMax);
    assert Run(d, steps, dMax) == Low(steps, dMax) && Run(e, steps, dMax) == High(steps, dMax);
  }

  // ---------- A zone's ticks

  /** A broadcast that advances the model: not the all-zero one that copies the site's deficit. */
  predicate Advances(e: CycleEvent) {
    e.Tick? && !(e.dtH == 0.0 && e.etH == 0.0 && e.rainMm == 0.0)
  }

  function StepOf(e: CycleEvent): real
    requires Advances(e)
  {
    e.etH * e.kc * e.dtH - e.rainMm
  }

  function StepsOf(events: seq<CycleEvent>): (r: seq<real>)
    requires forall i :: 0 <= i < |events| ==> Advances(events[i])
    ensures |r| == |events|
  {
    if events == [] then [] else StepsOf(events[..|events| - 1]) + [StepOf(events[|events| - 1])]
  }

  lemma TickIsAStep(z: State, e: CycleEvent)
    requires Advances(e)
    ensures Happened(z, e)
         == z.(deficit := z.deficit.(valueMm := Clamp(z.deficit.valueMm + StepOf(e), 0.0, z.dMax)))
  {
    assert z.deficit.valueMm + e.etH * e.kc * e.dtH - e.rainMm == z.deficit.valueMm + StepOf(e);
  }

  /** Any run of broadcasts to a zone is one clamp of its deficit, and touches nothing else. */
  lemma {:induction false} ZoneTicksAreARun(z: State, events: seq<CycleEvent>)
    requires forall i :: 0 <= i < |events| ==> Advances(events[i])
    ensures AfterAll(z, events) == z.(deficit := z.deficit.(valueMm := Run(z.deficit.valueMm, StepsOf(events), z.dMax)))
  {
    if events != [] {
      var n := |events| - 1;
      assert AfterAll(z, events) == Happened(AfterAll(z, events[..n]), events[n]);
      assert StepsOf(events) == StepsOf(events[..n]) + [StepOf(events[n])];
      hide *;
      ZoneTicksAreARun(z, events[..n]);
      TickIsAStep(AfterAll(z, events[..n]), events[n]);
      RunSnoc(z.deficit.valueMm, StepsOf(events[..n]), StepOf(events[n]), z.dMax);
    }
  }

  lemma RunSnoc(d: real, steps: seq<real>, step: real, dMax: real)
    ensures Run(d, steps + [step], dMax) == Clamp(Run(d, steps, dMax) + step, 0.0, dMax)
  {
    hide Clamp;
    assert (steps + [step])[..|steps|] == steps;
  }

  // ---------- Replaying recorded history

  datatype Kind = Temperature | Rain

  datatype Recorded = Recorded(atS: real, kind: Kind, value: real)

  datatype RainType = Accumulator | EventType

  /** What the replay is configured with. */
  datatype Site = Site(alpha: real, tBase: real, dMax: real, rainType: RainType)

  datatype Balance = Balance(deficit: real, lastTemp: Option<real>, lastRain: real, lastTime: real)

  function EtHourly(site: Site, temp: real): (r: real)
    ensures r >= 0.0
  {
    var rate := site.alpha * (temp - site.tBase) / 24.0;
    if rate >= 0.0 then rate else 0.0
  }

  /** Rain since the last reading: a drop of an accumulator is never precipitation. */
  function BackfillRain(rainType: RainType, now: real, last: real): real {
    match rainType
    case EventType => if now == last then 0.0 else if now >= 0.0 then now else 0.0
    case Accumulator => if now - last > 0.0 then now - last else 0.0
  }

  function Hours(from: real, to: real): real {
    (to - from) / 3600.0
  }

  function EvaporatedMm(site: Site, temp: real, from: real, to: real): real {
    EtHourly(site, temp) * Hours(from, to)
  }

  /** Evaporation at the last known temperature, from the last event up to now. */
  function Evaporated(site: Site, b: Balance, atS: real): real {
    match b.lastTemp
    case None => b.deficit
    case Some(t) => Clamp(b.deficit + EvaporatedMm(site, t, b.lastTime, atS), 0.0, site.dMax)
  }

  function Replayed(site: Site, b: Balance, r: Recorded): Balance {
    var deficit := Evaporated(site, b, r.atS);
    match r.kind
    case Temperature => Balance(deficit, Some(r.value), b.lastRain, r.atS)
    case Rain =>
      var left := deficit - BackfillRain(site.rainType, r.value, b.lastRain);
      Balance(if left >= 0.0 then left else 0.0, b.lastTemp, r.value, if b.lastTemp.Some? then r.atS else b.lastTime)
  }

  function ReplayFrom(site: Site, b: Balance, history: seq<Recorded>): Balance
    decreases |history|
  {
    if history == [] then b else ReplayFrom(site, Replayed(site, b, history[0]), history[1..])
  }

  function Start(history: seq<Recorded>): Balance
    requires history != []
  {
    Balance(0.0, None, 0.0, history[0].atS)
  }

  function Replay(site: Site, history: seq<Recorded>): real {
    if history == [] then 0.0 else ReplayFrom(site, Start(history), history).deficit
  }

  /** The replay loop, over recorded events in time order. */
  method ReplayWaterBalance(site: Site, history: seq<Recorded>) returns (deficit: real)
    ensures deficit == Replay(site, history)
  {
    hide Clamp, EvaporatedMm, BackfillRain;
    if history == [] {
      return 0.0;
    }
    deficit := 0.0;
    var lastTemp: Option<real> := None;
    var lastRain, lastTime := 0.0, history[0].atS;
    for n := 0 to |history|
      invariant Replay(site, history)
             == ReplayFrom(site, Balance(deficit, lastTemp, lastRain, lastTime), history[n..]).deficit
    {
      var r := history[n];
      assert history[n..][1..] == history[n + 1..];
      if r.kind == Temperature {
        if lastTemp.Some? {
          deficit := Clamp(deficit + EvaporatedMm(site, lastTemp.value, lastTime, r.atS), 0.0, site.dMax);
        }
        lastTemp := Some(r.value);
        lastTime := r.atS;
      } else {
        if lastTemp.Some? {
          deficit := Clamp(deficit + EvaporatedMm(site, lastTemp.value, lastTime, r.atS), 0.0, site.dMax);
          lastTime := r.atS;
        }
        var left := deficit - BackfillRain(site.rainType, r.value, lastRain);
        deficit := if left >= 0.0 then left else 0.0;
        lastRain := r.value;
      }
    }
  }

  ghost predicate TimeOrdered(history: seq<Recorded>) {
    forall i, j :: 0 <= i < j < |history| ==> history[i].atS <= history[j].atS
  }

  lemma {:induction false} ReplayInTwo(site: Site, b: Balance, p: seq<Recorded>, q: seq<Recorded>)
    ensures ReplayFrom(site, b, p + q) == ReplayFrom(site, ReplayFrom(site, b, p), q)
    decreases |p|
  {
    if p == [] {
      assert p + q == q;
    } else {
      assert (p + q)[1..] == p[1..] + q;
      ReplayInTwo(site, Replayed(site, b, p[0]), p[1..], q);
    }
  }

  ghost predicate InBox(site: Site, b: Balance) {
    0.0 <= b.deficit <= site.dMax
  }

  /** The replayed deficit stays in the box, and time does not run backwards. */
  lemma {:induction false} ReplayStaysInBox(site: Site, b: Balance, history: seq<Recorded>, until: real)
    requires InBox(site, b) && b.lastTime <= until
    requires forall r :: r in history ==> r.atS <= until
    ensures InBox(site, ReplayFrom(site, b, history)) && ReplayFrom(site, b, history).lastTime <= until
    decreases |history|
  {
    if history != [] {
      BackfillRainIsNotNegative(site.rainType, history[0].value, b.lastRain);
      assert history[0] in history && forall r :: r in history[1..] ==> r in history;
      ReplayStaysInBox(site, Replayed(site, b, history[0]), history[1..], until);
    }
  }

  lemma BackfillRainIsNotNegative(rainType: RainType, now: real, last: real)
    ensures BackfillRain(rainType, now, last) >= 0.0
  {
  }

  /** Stopping half-way at an unchanged temperature and going on is going there in one step. */
  lemma PausedEvaporation(site: Site, b: Balance, temp: real, mid: real, atS: real)
    requires InBox(site, b) && b.lastTemp == Some(temp)
    requires b.lastTime <= mid <= atS
    ensures Evaporated(site, Replayed(site, b, Recorded(mid, Temperature, temp)), atS) == Evaporated(site, b, atS)
  {
    var rate, h, h' := EtHourly(site, temp), Hours(b.lastTime, mid), Hours(mid, atS);
    assert Hours(b.lastTime, atS) == h + h';
    assert rate * (h + h') == rate * h + rate * h';
    assert rate * h >= 0.0 && rate * h' >= 0.0;
  }

  /**
   A recorder that also wrote down repeats of an unchanged temperature would replay to the same
   deficit: a repeat anywhere before the last event changes nothing.
   */
  lemma RepeatsDoNotCount(site: Site, p: seq<Recorded>, q: seq<Recorded>, atS: real, temp: real)
    requires site.dMax >= 0.0 && p != [] && q != [] && TimeOrdered(p + q)
    requires p[|p| - 1].atS <= atS <= q[0].atS
    requires ReplayFrom(site, Start(p), p).lastTemp == Some(temp)
    ensures Replay(site, p + [Recorded(atS, Temperature, temp)] + q) == Replay(site, p + q)
  {
    hide *;
    var extra := Recorded(atS, Temperature, temp);
    var b := ReplayFrom(site, Start(p), p);
    StateBeforeRepeat(site, p, q);
    StepAfterRepeat(site, b, extra, q[0]);
    ReplayAround(site, p, [extra] + q);
    ReplayAround(site, p, q);
    assert p + [extra] + q == p + ([extra] + q) && ([extra] + q)[1..] == q;
    ReplaySteps(site, b, [extra] + q);
    ReplaySteps(site, Replayed(site, b, extra), q);
    ReplaySteps(site, b, q);
  }

  lemma StateBeforeRepeat(site: Site, p: seq<Recorded>, q: seq<Recorded>)
    requires site.dMax >= 0.0 && p != [] && TimeOrdered(p + q)
    ensures var b := ReplayFrom(site, Start(p), p);
      InBox(site, b) && b.lastTime <= p[|p| - 1].atS
  {
    assert forall i :: 0 <= i < |p| ==> (p + q)[i] == p[i];
    ReplayStaysInBox(site, Start(p), p, p[|p| - 1].atS);
  }

  lemma StepAfterRepeat(site: Site, b: Balance, extra: Recorded, next: Recorded)
    requires InBox(site, b) && extra.kind == Temperature && b.lastTemp == Some(extra.value)
    requires b.lastTime <= extra.atS <= next.atS
    ensures Replayed(site, Replayed(site, b, extra), next) == Replayed(site, b, next)
  {
    hide Clamp, EvaporatedMm, BackfillRain;
    PausedEvaporation(site, b, extra.value, extra.atS, next.atS);
  }

  lemma ReplaySteps(site: Site, b: Balance, history: seq<Recorded>)
    requires history != []
    ensures ReplayFrom(site, b, history) == ReplayFrom(site, Replayed(site, b, history[0]), history[1..])
  {
  }

  lemma ReplayAround(site: Site, p: seq<Recorded>, q: seq<Recorded>)
    requires p != []
    ensures Replay(site, p + q) == ReplayFrom(site, ReplayFrom(site, Start(p), p), q).deficit
  {
    hide Replayed;
    ReplayInTwo(site, Start(p), p, q);
  }

  lemma TrailingRepeat(site: Site, p: seq<Recorded>, atS: real, temp: real)
    requires p != []
    ensures Replay(site, p + [Recorded(atS, Temperature, temp)])
         == Evaporated(site, ReplayFrom(site, Start(p), p), atS)
  {
    var extra := Recorded(atS, Temperature, temp);
    ReplayInTwo(site, Start(p), p, [extra]);
    assert [extra][1..] == [];
  }

  /**
   At the very end a repeat does count: it is what makes the last stretch evaporate. It changes
   nothing exactly when that stretch evaporates nothing, or the deficit is at its limit already.
   */
  lemma TrailingRepeatEvaporates(site: Site, p: seq<Recorded>, atS: real, temp: real)
    requires site.dMax >= 0.0 && p != [] && TimeOrdered(p) && p[|p| - 1].atS <= atS
    requires ReplayFrom(site, Start(p), p).lastTemp == Some(temp)
    ensures Replay(site, p + [Recorded(atS, Temperature, temp)]) == Replay(site, p)
      <==> (EvaporatedMm(site, temp, ReplayFrom(site, Start(p), p).lastTime, atS) == 0.0
            || Replay(site, p) == site.dMax)
  {
    hide Replayed, Replay, EvaporatedMm;
    var b := ReplayFrom(site, Start(p), p);
    assert p + [] == p;
    StateBeforeRepeat(site, p, []);
    TrailingRepeat(site, p, atS, temp);
    ReplayAround(site, p, []);
    EvaporationIsNotNegative(site, temp, b.lastTime, atS);
  }

  lemma EvaporationIsNotNegative(site: Site, temp: real, from: real, to: real)
    requires from <= to
    ensures EvaporatedMm(site, temp, from, to) >= 0.0
  {
    assert Hours(from, to) >= 0.0;
  }

  /** An hour at a temperature that evaporates a millimetre an hour: with the repeat 1 mm, without it none. */
  lemma TrailingRepeatCounts()
    ensures var site, first := Site(24.0, 0.0, 10.0, Accumulator), Recorded(0.0, Temperature, 1.0);
      Replay(site, [first]) == 0.0 && Replay(site, [first] + [Recorded(3600.0, Temperature, 1.0)]) == 1.0
  {
    var site, first := Site(24.0, 0.0, 10.0, Accumulator), Recorded(0.0, Temperature, 1.0);
    assert [first][1..] == [];
    TrailingRepeat(site, [first], 3600.0, 1.0);
  }

  // ---------- The live path

  /** The live balance: the rain's level is unknown until the first reading. */
  datatype LiveBalance = LiveBalance(deficit: real, lastRain: Option<real>)

  /**
   A recorded event, and the evaporation the live path puts down for the time since the event
   before it; None while its model has nothing to go by.
   */
  datatype Observation = Observation(r: Recorded, due: Option<real>)

  function Records(os: seq<Observation>): (r: seq<Recorded>)
    ensures |r| == |os|
    ensures forall i :: 0 <= i < |os| ==> r[i] == os[i].r
  {
    seq(|os|, i requires 0 <= i < |os| => os[i].r)
  }

  /** Rain credited live for a reading of an accumulator: the first one only fixes the level. */
  function LiveRain(now: real, last: Option<real>): (r: real)
    ensures r >= 0.0
  {
    if last.None? || now - last.value < 0.0 then 0.0 else now - last.value
  }

  /**
   One event on the live path. Evaporation and rain enter a single clamped step, where the replay
   clamps after each; while the model has nothing to go by the deficit is frozen and rain passes by.
   */
  function Lived(site: Site, l: LiveBalance, o: Observation): LiveBalance {
    var rain := if o.r.kind == Rain then LiveRain(o.r.value, l.lastRain) else 0.0;
    LiveBalance(
      match o.due
      case None => l.deficit
      case Some(mm) => Clamp(l.deficit + mm - rain, 0.0, site.dMax),
      if o.r.kind == Rain then Some(o.r.value) else l.lastRain)
  }

  function LiveFrom(site: Site, l: LiveBalance, os: seq<Observation>): LiveBalance {
    if os == [] then l else Lived(site, LiveFrom(site, l, os[..|os| - 1]), os[|os| - 1])
  }

  const LIVE_START := LiveBalance(0.0, None)

  function LiveReplay(site: Site, os: seq<Observation>): real {
    LiveFrom(site, LIVE_START, os).deficit
  }

  // ---------- The evaporation of the simplest tier

  const ET_BUFFER_SIZE := 10

  /** The temperature that stands after some events. */
  function Standing(history: seq<Recorded>): Option<real> {
    if history == [] then None
    else if history[|history| - 1].kind == Temperature then Some(history[|history| - 1].value)
    else Standing(history[..|history| - 1])
  }

  /** The rolling buffer: every event, of either kind, takes in the temperature that stands. */
  function Buffered(history: seq<Recorded>): (r: seq<real>)
    ensures |r| <= ET_BUFFER_SIZE
  {
    if history == [] then []
    else
      var before := Buffered(history[..|history| - 1]);
      match Standing(history)
      case None => before
      case Some(t) => if |before| < ET_BUFFER_SIZE then before + [t] else before[1..] + [t]
  }

  /** The last event's evaporation: at the median of the buffer, that event's temperature included. */
  function MedianDue(site: Site, history: seq<Recorded>): Option<real>
    requires history != []
  {
    var n := |history| - 1;
    if Buffered(history) == [] then None
    else Some(EvaporatedMm(site, Median(Buffered(history)), history[if n == 0 then 0 else n - 1].atS, history[n].atS))
  }

  /** A recorded history as the simplest tier observes it. */
  function Simplest(site: Site, history: seq<Recorded>): (os: seq<Observation>)
    ensures |os| == |history|
  {
    if history == [] then []
    else
      Simplest(site, history[..|history| - 1]) + [Observation(history[|history| - 1], MedianDue(site, history))]
  }

  lemma {:induction false} SimplestRecords(site: Site, history: seq<Recorded>)
    ensures Records(Simplest(site, history)) == history
  {
    if history != [] {
      var n := |history| - 1;
      SimplestRecords(site, history[..n]);
      var before := Simplest(site, history[..n]);
      forall i | 0 <= i < n ensures before[i].r == history[i] {
        assert Records(before)[i] == before[i].r;
      }
    }
  }

  lemma {:induction false} SimplestPrefix(site: Site, history: seq<Recorded>, j: nat)
    requires j <= |history|
    ensures Simplest(site, history)[..j] == Simplest(site, history[..j])
    ensures j < |history| ==> Simplest(site, history)[j] == Observation(history[j], MedianDue(site, history[..j + 1]))
    decreases |history|
  {
    hide MedianDue;
    var n := |history| - 1;
    if j <= n {
      if j < n { SimplestPrefix(site, history[..n], j); }
      assert history[..n][..j] == history[..j] && history[..n + 1] == history;
      assert j < n ==> history[..n][..j + 1] == history[..j + 1];
    } else {
      assert history[..j] == history;
    }
  }

  /** The buffer holds the temperatures that stood at the last events, newest last. */
  lemma {:induction false} BufferedAt(history: seq<Recorded>, i: nat)
    requires i < |Buffered(history)|
    ensures i < |history|
    ensures Standing(history[..|history| - i]) == Some(Buffered(history)[|Buffered(history)| - 1 - i])
  {
    var n := |history| - 1;
    assert history[..n + 1] == history;
    if Standing(history).None? {
      NoneBuffered(history);
    } else if i > 0 {
      BufferedAt(history[..n], i - 1);
      assert history[..n][..n - (i - 1)] == history[..n + 1 - i];
    }
  }

  lemma {:induction false} NoneBuffered(history: seq<Recorded>)
    requires Standing(history).None?
    ensures Buffered(history) == []
  {
    if history != [] { NoneBuffered(history[..|history| - 1]); }
  }

  /** Ten of them, or as many as there have been since the first temperature. */
  lemma {:induction false} BufferedCount(history: seq<Recorded>)
    ensures |Buffered(history)| == 10
         || (|Buffered(history)| <= |history| && Standing(history[..|history| - |Buffered(history)|]).None?)
  {
    if history != [] {
      var n := |history| - 1;
      BufferedCount(history[..n]);
      assert history[..n + 1] == history;
      if Standing(history).None? {
        NoneBuffered(history);
      } else if |Buffered(history[..n])| < 10 {
        var k := |Buffered(history[..n])|;
        assert history[..n][..n - k] == history[..n + 1 - (k + 1)];
      }
    }
  }

  // ---------- The replay against the live path

  /** The replay over the same events, from the last backwards. */
  function ReplayOver(site: Site, b: Balance, os: seq<Observation>): Balance {
    if os == [] then b else Replayed(site, ReplayOver(site, b, os[..|os| - 1]), os[|os| - 1].r)
  }

  lemma {:induction false} ReplayOverRecords(site: Site, b: Balance, os: seq<Observation>)
    ensures ReplayOver(site, b, os) == ReplayFrom(site, b, Records(os))
  {
    hide Replayed;
    if os != [] {
      var n := |os| - 1;
      ReplayOverRecords(site, b, os[..n]);
      ReplayInTwo(site, b, Records(os[..n]), [os[n].r]);
      assert Records(os) == Records(os[..n]) + [os[n].r] && [os[n].r][1..] == [];
    }
  }

  /** The evaporation the replay puts down for the time since its last event. */
  function EvaporationDue(site: Site, b: Balance, atS: real): real {
    match b.lastTemp case None => 0.0 case Some(t) => EvaporatedMm(site, t, b.lastTime, atS)
  }

  /** What the live path puts down: nothing while it is frozen. */
  function DueMm(o: Observation): real {
    if o.due.None? then 0.0 else o.due.value
  }

  function RainTaken(l: LiveBalance, o: Observation): real {
    if o.due.None? || o.r.kind != Rain then 0.0 else LiveRain(o.r.value, l.lastRain)
  }

  function RainReplayed(b: Balance, o: Observation): real {
    if o.r.kind == Rain then BackfillRain(Accumulator, o.r.value, b.lastRain) else 0.0
  }

  /** Both in the box, and the same rain level as far as it is known. */
  ghost predicate Beside(site: Site, l: LiveBalance, b: Balance) {
    && 0.0 <= l.deficit <= site.dMax
    && 0.0 <= b.deficit <= site.dMax
    && (if l.lastRain.None? then b.lastRain == 0.0 else l.lastRain.value == b.lastRain)
  }

  function Dried(x: real): real {
    if x >= 0.0 then x else 0.0
  }

  /** One event as arithmetic: one clamped step for the live path, two for the replay. */
  lemma EventAsSteps(site: Site, l: LiveBalance, b: Balance, o: Observation)
    requires site.rainType == Accumulator && Beside(site, l, b)
    ensures var l', b' := Lived(site, l, o), Replayed(site, b, o.r);
      var mm := EvaporationDue(site, b, o.r.atS);
      && l'.deficit == Clamp(l.deficit + DueMm(o) - RainTaken(l, o), 0.0, site.dMax)
      && b'.deficit == Dried(Clamp(b.deficit + mm, 0.0, site.dMax) - RainReplayed(b, o))
      && 0.0 <= RainTaken(l, o) <= RainReplayed(b, o)
      && Beside(site, l', b')
  {
    hide EvaporatedMm;
  }

  /** Evaporation over the limit, as far as the rain behind it: only the replay cuts it before the rain. */
  function Forgotten(site: Site, b: Balance, o: Observation): real {
    var excess := Dried(b.deficit + EvaporationDue(site, b, o.r.atS) - site.dMax);
    if excess <= RainReplayed(b, o) then excess else RainReplayed(b, o)
  }

  /** How far one event can part the two: evaporation, rain only one takes, and excess forgotten. */
  function Parting(site: Site, l: LiveBalance, b: Balance, o: Observation): real {
    Abs(DueMm(o) - EvaporationDue(site, b, o.r.atS)) + (RainReplayed(b, o) - RainTaken(l, o)) + Forgotten(site, b, o)
  }

  function Partings(site: Site, l: LiveBalance, b: Balance, os: seq<Observation>): real {
    if os == [] then 0.0
    else
      var before := os[..|os| - 1];
      Partings(site, l, b, before)
      + Parting(site, LiveFrom(site, l, before), ReplayOver(site, b, before), os[|os| - 1])
  }

  lemma StepsPart(x: real, y: real, mm: real, mm': real, rain: real, rain': real, dMax: real)
    requires 0.0 <= x <= dMax && 0.0 <= y <= dMax && 0.0 <= rain <= rain'
    ensures var excess := Dried(y + mm' - dMax);
      Abs(Clamp(x + mm - rain, 0.0, dMax) - Dried(Clamp(y + mm', 0.0, dMax) - rain'))
      <= Abs(x - y) + Abs(mm - mm') + (rain' - rain) + (if excess <= rain' then excess else rain')
  {
  }

  lemma EventParts(site: Site, l: LiveBalance, b: Balance, o: Observation)
    requires site.rainType == Accumulator && Beside(site, l, b)
    ensures var l', b' := Lived(site, l, o), Replayed(site, b, o.r);
      Beside(site, l', b') && Abs(l'.deficit - b'.deficit) <= Abs(l.deficit - b.deficit) + Parting(site, l, b, o)
  {
    hide Lived, Replayed, Clamp, RainTaken, RainReplayed, EvaporationDue, DueMm, Dried, Abs, EvaporatedMm;
    EventAsSteps(site, l, b, o);
    StepsPart(l.deficit, b.deficit, DueMm(o), EvaporationDue(site, b, o.r.atS), RainTaken(l, o), RainReplayed(b, o),
              site.dMax);
  }

  /**
   With no premise on the evaporation, nor on the order of time: the gap is at most what it was,
   plus all that has parted the two since.
   */
  lemma {:induction false} GapIsBounded(site: Site, l: LiveBalance, b: Balance, os: seq<Observation>)
    requires site.rainType == Accumulator && Beside(site, l, b)
    ensures Beside(site, LiveFrom(site, l, os), ReplayOver(site, b, os))
    ensures Abs(LiveFrom(site, l, os).deficit - ReplayOver(site, b, os).deficit)
         <= Abs(l.deficit - b.deficit) + Partings(site, l, b, os)
  {
    hide Lived, Replayed, Parting, Beside, Abs;
    if os != [] {
      var before := os[..|os| - 1];
      GapIsBounded(site, l, b, before);
      EventParts(site, LiveFrom(site, l, before), ReplayOver(site, b, before), os[|os| - 1]);
    }
  }

  /** So for a whole history, from its start: the replay is within what has parted it of the live path. */
  lemma ReplayIsNearLive(site: Site, os: seq<Observation>)
    requires site.rainType == Accumulator && site.dMax >= 0.0 && os != []
    ensures Abs(LiveReplay(site, os) - Replay(site, Records(os)))
         <= Partings(site, LIVE_START, Start(Records(os)), os)
  {
    GapIsBounded(site, LIVE_START, Start(Records(os)), os);
    ReplayOverRecords(site, Start(Records(os)), os);
  }

  // ---------- The same evaporation on both paths

  /** The live path puts down for an event what the replay does. */
  predicate EvaporatesAlike(site: Site, b: Balance, o: Observation) {
    DueMm(o) == EvaporationDue(site, b, o.r.atS)
  }

  ghost predicate SameEvaporation(site: Site, b: Balance, os: seq<Observation>) {
    forall j :: 0 <= j < |os| ==> EvaporatesAlike(site, ReplayOver(site, b, os[..j]), os[j])
  }

  /**
   An event that can still part the two: rain that only the replay credits, because the live path
   fixes its level by it or is frozen, or rain after more evaporation than the reservoir holds.
   */
  predicate Parts(site: Site, l: LiveBalance, b: Balance, o: Observation) {
    RainTaken(l, o) < RainReplayed(b, o)
    || (RainTaken(l, o) > 0.0 && b.deficit + EvaporationDue(site, b, o.r.atS) > site.dMax)
  }

  /** Both dry, or both full: whatever parted them is forgotten. */
  predicate Met(site: Site, l: LiveBalance, b: Balance) {
    l.deficit == 0.0 || b.deficit == site.dMax
  }

  /** Side by side, the replay no higher, and its clock not ahead of the event to come. */
  ghost predicate Below(site: Site, l: LiveBalance, b: Balance) {
    Beside(site, l, b) && b.deficit <= l.deficit
  }

  ghost predicate Timely(b: Balance, atS: real) {
    b.lastTemp.Some? ==> b.lastTime <= atS
  }

  /** One clamped step against two, of the same evaporation. */
  lemma OneClampOrTwo(x: real, y: real, mm: real, rain: real, credited: real, dMax: real)
    requires 0.0 <= y <= x <= dMax && mm >= 0.0 && 0.0 <= rain <= credited
    ensures var live, replayed := Clamp(x + mm - rain, 0.0, dMax), Dried(Clamp(y + mm, 0.0, dMax) - credited);
      var parts := rain < credited || (rain > 0.0 && y + mm > dMax);
      && 0.0 <= replayed <= live <= dMax
      && (!parts ==> live - replayed <= x - y)
      && (live == replayed <==> live == 0.0 || replayed == dMax || (x == y && !parts))
  {
  }

  /** What one event makes of the gap: it closes exactly by meeting, or by never having opened. */
  lemma GapAfter(site: Site, l: LiveBalance, b: Balance, o: Observation)
    requires site.rainType == Accumulator && Below(site, l, b) && Timely(b, o.r.atS)
    requires EvaporatesAlike(site, b, o)
    ensures var l', b' := Lived(site, l, o), Replayed(site, b, o.r);
      && Below(site, l', b')
      && (!Parts(site, l, b, o) ==> l'.deficit - b'.deficit <= l.deficit - b.deficit)
      && (l'.deficit == b'.deficit
          <==> Met(site, l', b') || (l.deficit == b.deficit && !Parts(site, l, b, o)))
  {
    if b.lastTemp.Some? { EvaporationIsNotNegative(site, b.lastTemp.value, b.lastTime, o.r.atS); }
    hide EvaporatedMm;
    EventAsSteps(site, l, b, o);
    var mm := EvaporationDue(site, b, o.r.atS);
    assert mm >= 0.0;
    hide Lived, Replayed, Clamp, RainTaken, RainReplayed, EvaporationDue, Dried, DueMm;
    OneClampOrTwo(l.deficit, b.deficit, mm, RainTaken(l, o), RainReplayed(b, o), site.dMax);
  }

  /** The replay's clock is that of the last event, once it has a temperature. */
  lemma ClockAfter(site: Site, b: Balance, o: Observation)
    ensures var b' := Replayed(site, b, o.r); b'.lastTemp.Some? ==> b'.lastTime == o.r.atS
  {
  }

  lemma StaysTimely(site: Site, b: Balance, os: seq<Observation>, atS: real)
    requires Timely(b, atS) && forall i :: 0 <= i < |os| ==> os[i].r.atS <= atS
    ensures Timely(ReplayOver(site, b, os), atS)
  {
    if os != [] { ClockAfter(site, ReplayOver(site, b, os[..|os| - 1]), os[|os| - 1]); }
  }

  /** From where a run of events may start. */
  ghost predicate Comparable(site: Site, l: LiveBalance, b: Balance, os: seq<Observation>) {
    && site.rainType == Accumulator && Below(site, l, b)
    && TimeOrdered(Records(os)) && (os != [] ==> Timely(b, os[0].r.atS))
    && SameEvaporation(site, b, os)
  }

  lemma ComparablePrefix(site: Site, l: LiveBalance, b: Balance, os: seq<Observation>)
    requires Comparable(site, l, b, os) && os != []
    ensures var n := |os| - 1;
      && Comparable(site, l, b, os[..n])
      && Timely(ReplayOver(site, b, os[..n]), os[n].r.atS)
      && EvaporatesAlike(site, ReplayOver(site, b, os[..n]), os[n])
  {
    hide Below, EvaporatesAlike, ReplayOver;
    var n := |os| - 1;
    assert Records(os[..n]) == Records(os)[..n];
    assert forall j :: 0 <= j <= n ==> os[..n][..j] == os[..j];
    forall i | 0 <= i < n ensures os[i].r.atS <= os[n].r.atS {
      assert Records(os)[i].atS <= Records(os)[n].atS;
    }
    assert Records(os)[0].atS <= Records(os)[n].atS || n == 0;
    StaysTimely(site, b, os[..n], os[n].r.atS);
  }

  lemma {:induction false} StaysBelow(site: Site, l: LiveBalance, b: Balance, os: seq<Observation>)
    requires Comparable(site, l, b, os)
    ensures Below(site, LiveFrom(site, l, os), ReplayOver(site, b, os))
  {
    if os != [] {
      var n := |os| - 1;
      ComparablePrefix(site, l, b, os);
      hide Below, Comparable, Lived, Replayed, Parts, Met;
      StaysBelow(site, l, b, os[..n]);
      RainKind(site, l, b, os);
      GapAfter(site, LiveFrom(site, l, os[..n]), ReplayOver(site, b, os[..n]), os[n]);
    }
  }

  lemma RainKind(site: Site, l: LiveBalance, b: Balance, os: seq<Observation>)
    requires Comparable(site, l, b, os)
    ensures site.rainType == Accumulator
  {
  }

  /** The two met after `k` events, and nothing has parted them since. */
  ghost predicate MetLast(site: Site, l: LiveBalance, b: Balance, os: seq<Observation>, k: int) {
    && 0 <= k <= |os|
    && Met(site, LiveFrom(site, l, os[..k]), ReplayOver(site, b, os[..k]))
    && forall j :: k <= j < |os| ==>
         !Parts(site, LiveFrom(site, l, os[..j]), ReplayOver(site, b, os[..j]), os[j])
  }

  lemma MetLastSnoc(site: Site, l: LiveBalance, b: Balance, os: seq<Observation>, k: int)
    requires os != [] && 0 <= k < |os|
    ensures var n := |os| - 1;
      MetLast(site, l, b, os, k)
      <==> (MetLast(site, l, b, os[..n], k)
            && !Parts(site, LiveFrom(site, l, os[..n]), ReplayOver(site, b, os[..n]), os[n]))
  {
    hide Met, Parts, LiveFrom, ReplayOver;
    var n := |os| - 1;
    assert forall j :: 0 <= j <= n ==> os[..n][..j] == os[..j];
  }

  lemma AgreementSteps(site: Site, l: LiveBalance, b: Balance, os: seq<Observation>)
    requires os != []
    ensures var n := |os| - 1;
      (exists k :: MetLast(site, l, b, os, k))
      <==> (Met(site, LiveFrom(site, l, os), ReplayOver(site, b, os))
            || ((exists k :: MetLast(site, l, b, os[..n], k))
                && !Parts(site, LiveFrom(site, l, os[..n]), ReplayOver(site, b, os[..n]), os[n])))
  {
    var n := |os| - 1;
    assert os[..n + 1] == os;
    assert MetLast(site, l, b, os, n + 1) <==> Met(site, LiveFrom(site, l, os), ReplayOver(site, b, os));
    forall k | 0 <= k <= n { MetLastSnoc(site, l, b, os, k); }
    var apart := Parts(site, LiveFrom(site, l, os[..n]), ReplayOver(site, b, os[..n]), os[n]);
    hide Parts, LiveFrom, ReplayOver, Met;
    if k :| MetLast(site, l, b, os, k) && k <= n {
      assert MetLast(site, l, b, os[..n], k);
    }
    if k :| MetLast(site, l, b, os[..n], k) && !apart {
      assert k <= n;
      assert MetLast(site, l, b, os, k);
    }
  }

  /**
   Given the same evaporation, the replay never shows more deficit than the live path, and the same
   exactly when at some moment both were dry or both full and no event since has parted them.
   */
  lemma {:induction false} BalancesAgree(site: Site, l: LiveBalance, b: Balance, os: seq<Observation>)
    requires Comparable(site, l, b, os) && Met(site, l, b)
    ensures ReplayOver(site, b, os).deficit <= LiveFrom(site, l, os).deficit
    ensures LiveFrom(site, l, os).deficit == ReplayOver(site, b, os).deficit
      <==> exists k :: MetLast(site, l, b, os, k)
  {
    StaysBelow(site, l, b, os);
    if os == [] {
      assert os[..0] == [] && MetLast(site, l, b, os, 0);
    } else {
      var n := |os| - 1;
      ComparablePrefix(site, l, b, os);
      StaysBelow(site, l, b, os[..n]);
      BalancesAgree(site, l, b, os[..n]);
      GapAfter(site, LiveFrom(site, l, os[..n]), ReplayOver(site, b, os[..n]), os[n]);
      hide Below, Comparable, Lived, Replayed, Parts, Met, MetLast;
      AgreementSteps(site, l, b, os);
    }
  }

  /** So for any history through which the two paths put down the same evaporation. */
  lemma ReplayAgreesWithLive(site: Site, os: seq<Observation>)
    requires site.rainType == Accumulator && site.dMax >= 0.0 && os != [] && TimeOrdered(Records(os))
    requires SameEvaporation(site, Start(Records(os)), os)
    ensures Replay(site, Records(os)) <= LiveReplay(site, os)
    ensures Replay(site, Records(os)) == LiveReplay(site, os)
      <==> exists k :: MetLast(site, LIVE_START, Start(Records(os)), os, k)
  {
    hide MetLast, SameEvaporation, TimeOrdered;
    assert Comparable(site, LIVE_START, Start(Records(os)), os);
    BalancesAgree(site, LIVE_START, Start(Records(os)), os);
    ReplayOverRecords(site, Start(Records(os)), os);
  }

  ghost predicate NothingParts(site: Site, l: LiveBalance, b: Balance, os: seq<Observation>) {
    forall j :: 0 <= j < |os| ==> !Parts(site, LiveFrom(site, l, os[..j]), ReplayOver(site, b, os[..j]), os[j])
  }

  lemma NothingPartsPrefix(site: Site, l: LiveBalance, b: Balance, os: seq<Observation>)
    requires NothingParts(site, l, b, os) && os != []
    ensures var n := |os| - 1;
      && NothingParts(site, l, b, os[..n])
      && !Parts(site, LiveFrom(site, l, os[..n]), ReplayOver(site, b, os[..n]), os[n])
  {
    hide Parts, LiveFrom, ReplayOver;
    var n := |os| - 1;
    assert forall j :: 0 <= j < n ==> os[..n][..j] == os[..j] && os[..n][j] == os[j];
  }

  /** While nothing more parts them the gap never grows. */
  lemma {:induction false} GapNeverGrows(site: Site, l: LiveBalance, b: Balance, os: seq<Observation>)
    requires Comparable(site, l, b, os) && NothingParts(site, l, b, os)
    ensures LiveFrom(site, l, os).deficit - ReplayOver(site, b, os).deficit <= l.deficit - b.deficit
  {
    hide Parts, Below, Comparable, Lived, Replayed, NothingParts, EvaporatesAlike, Timely, Met;
    if os != [] {
      var n := |os| - 1;
      ComparablePrefix(site, l, b, os);
      NothingPartsPrefix(site, l, b, os);
      StaysBelow(site, l, b, os[..n]);
      RainKind(site, l, b, os);
      GapAfter(site, LiveFrom(site, l, os[..n]), ReplayOver(site, b, os[..n]), os[n]);
      GapNeverGrows(site, l, b, os[..n]);
    }
  }

  /**
   At the first rain reading, of two equal deficits evaporating alike, the live path only evaporates.
   The replay agrees exactly when it credits nothing, or the deficit has nothing to give.
   */
  lemma FirstReadingParts(site: Site, l: LiveBalance, b: Balance, o: Observation)
    requires site.rainType == Accumulator && Beside(site, l, b) && l.deficit == b.deficit && Timely(b, o.r.atS)
    requires EvaporatesAlike(site, b, o) && o.r.kind == Rain && l.lastRain.None?
    ensures Lived(site, l, o).deficit == Evaporated(site, b, o.r.atS)
    ensures Lived(site, l, o).deficit == Replayed(site, b, o.r).deficit
      <==> (o.r.value <= 0.0 || Evaporated(site, b, o.r.atS) == 0.0)
    ensures 0.0 <= Lived(site, l, o).deficit - Replayed(site, b, o.r).deficit <= Dried(o.r.value)
  {
    hide EvaporatedMm;
    if b.lastTemp.Some? { EvaporationIsNotNegative(site, b.lastTemp.value, b.lastTime, o.r.atS); }
  }

  // ---------- When the evaporation is the same, and when not

  lemma {:induction false} ConstantBuffer(history: seq<Recorded>, temp: real)
    requires forall r :: r in history && r.kind == Temperature ==> r.value == temp
    ensures Standing(history).Some? ==> Standing(history) == Some(temp)
    ensures forall x :: x in Buffered(history) ==> x == temp
    ensures Standing(history).Some? ==> Buffered(history) != []
  {
    if history != [] {
      var n := |history| - 1;
      assert history[n] in history && forall r :: r in history[..n] ==> r in history;
      ConstantBuffer(history[..n], temp);
    }
  }

  lemma ConstantMedian(s: seq<real>, x: real)
    requires s != [] && forall y :: y in s ==> y == x
    ensures Median(s) == x
  {
    KthIsAnEntry(s, |s| / 2);
    KthIsAnEntry(s, (|s| - 1) / 2);
    MedianOfMiddles(s);
  }

  /** From a first temperature on, the replay knows the last one, and its clock is the last event's. */
  lemma {:induction false} ReplayKnows(site: Site, b: Balance, history: seq<Recorded>, os: seq<Observation>)
    requires history != [] && history[0].kind == Temperature && Records(os) == history
    ensures ReplayOver(site, b, os).lastTemp == Standing(history) && Standing(history).Some?
    ensures ReplayOver(site, b, os).lastTime == history[|history| - 1].atS
  {
    var n := |history| - 1;
    assert Records(os)[n] == os[n].r;
    if n > 0 {
      assert Records(os[..n]) == history[..n];
      ReplayKnows(site, b, history[..n], os[..n]);
    } else {
      assert history[..0] == [];
    }
  }

  lemma SteadyDue(site: Site, history: seq<Recorded>, temp: real)
    requires history != [] && Standing(history).Some?
    requires forall r :: r in history && r.kind == Temperature ==> r.value == temp
    ensures var n := |history| - 1;
      MedianDue(site, history)
      == Some(EvaporatedMm(site, temp, history[if n == 0 then 0 else n - 1].atS, history[n].atS))
  {
    hide Standing, Buffered, EvaporatedMm;
    ConstantBuffer(history, temp);
    ConstantMedian(Buffered(history), temp);
  }

  lemma NoTimeEvaporatesNothing(site: Site, temp: real, atS: real)
    ensures EvaporatedMm(site, temp, atS, atS) == 0.0
  {
    assert Hours(atS, atS) == 0.0;
  }

  lemma {:induction false} StandsFromFirst(history: seq<Recorded>)
    requires history != [] && history[0].kind == Temperature
    ensures Standing(history).Some?
  {
    if |history| > 1 { StandsFromFirst(history[..|history| - 1]); }
  }

  lemma SteadyEvent(site: Site, history: seq<Recorded>, temp: real, j: nat)
    requires j < |history| && history[0].kind == Temperature
    requires forall r :: r in history && r.kind == Temperature ==> r.value == temp
    ensures EvaporatesAlike(site, ReplayOver(site, Start(history), Simplest(site, history[..j])),
                            Observation(history[j], MedianDue(site, history[..j + 1])))
  {
    hide Standing, Simplest, Replayed, EvaporatedMm, MedianDue;
    var upTo, before := history[..j + 1], history[..j];
    assert forall r :: r in upTo ==> r in history;
    StandsFromFirst(upTo);
    SteadyDue(site, upTo, temp);
    if j == 0 {
      SimplestRecords(site, before);
      assert Simplest(site, before) == [];
      NoTimeEvaporatesNothing(site, temp, history[0].atS);
    } else {
      SimplestRecords(site, before);
      ReplayKnows(site, Start(history), before, Simplest(site, before));
      assert forall r :: r in before ==> r in history;
      ConstantBuffer(before, temp);
    }
  }

  /**
   At a constant temperature, from a first reading of it, the simplest tier evaporates as the replay
   does: the median of equal readings is the last one.
   */
  lemma SteadyWeatherEvaporatesAlike(site: Site, history: seq<Recorded>, temp: real)
    requires history != [] && history[0].kind == Temperature
    requires forall r :: r in history && r.kind == Temperature ==> r.value == temp
    ensures Records(Simplest(site, history)) == history
    ensures SameEvaporation(site, Start(history), Simplest(site, history))
  {
    SimplestRecords(site, history);
    hide EvaporatesAlike, MedianDue, ReplayOver;
    var os := Simplest(site, history);
    forall j | 0 <= j < |os| ensures EvaporatesAlike(site, ReplayOver(site, Start(history), os[..j]), os[j]) {
      SimplestPrefix(site, history, j);
      SteadyEvent(site, history, temp, j);
    }
  }

  lemma MedianOfTwo(a: real, b: real)
    ensures Median([a, b]) == (a + b) / 2.0
  {
    assert [a, b][1..] == [b] && [b][1..] == [];
    assert Sort([b]) == [b];
    assert Sort([a, b]) == if a <= b then [a, b] else [b, a];
  }

  /** Two events of the simplest tier. */
  lemma TwoObserved(site: Site, first: Recorded, second: Recorded)
    requires first.kind == Temperature
    ensures var middle := if second.kind == Temperature then (first.value + second.value) / 2.0 else first.value;
      Simplest(site, [first, second])
      == [Observation(first, Some(0.0)), Observation(second, Some(EvaporatedMm(site, middle, first.atS, second.atS)))]
  {
    hide EvaporatedMm, Buffered, Median;
    var a, b := first.value, if second.kind == Temperature then second.value else first.value;
    var history := [first, second];
    assert history[..1] == [first] && [first][..0] == [];
    TwoBuffered(first, second);
    ConstantMedian([a], a);
    MedianOfTwo(a, b);
    NoTimeEvaporatesNothing(site, a, first.atS);
    assert Simplest(site, [first]) == [Observation(first, MedianDue(site, [first]))];
  }

  lemma TwoBuffered(first: Recorded, second: Recorded)
    requires first.kind == Temperature
    ensures Buffered([first]) == [first.value]
    ensures Buffered([first, second])
         == [first.value, if second.kind == Temperature then second.value else first.value]
  {
    assert [first, second][..1] == [first] && [first][..0] == [];
    assert Standing([first]) == Some(first.value);
    assert Buffered([first]) == [first.value];
  }

  /** Two events, one after the other, on either path. */
  lemma TwoEvents(site: Site, first: Observation, second: Observation)
    ensures var os := [first, second];
      && Records(os) == [first.r, second.r]
      && Replay(site, Records(os)) == Replayed(site, Replayed(site, Start(Records(os)), first.r), second.r).deficit
      && LiveReplay(site, os) == Lived(site, Lived(site, LIVE_START, first), second).deficit
  {
    hide Replayed, Lived;
    var os := [first, second];
    assert os[..1] == [first] && [first][..0] == [];
    assert LiveFrom(site, LIVE_START, [first]) == Lived(site, LIVE_START, first);
    ReplayOverRecords(site, Start(Records(os)), os);
    assert ReplayOver(site, Start(Records(os)), [first]) == Replayed(site, Start(Records(os)), first.r);
  }

  /**
   Two temperatures: the replay evaporates at the first, the live path at the median of both, so
   either of them can be the one that shows more deficit.
   */
  lemma ReadingsEvaporateUnalike(site: Site, a: real, b: real, fromS: real, toS: real)
    requires site.dMax >= 0.0
    ensures var history := [Recorded(fromS, Temperature, a), Recorded(toS, Temperature, b)];
      && Replay(site, history) == Clamp(EvaporatedMm(site, a, fromS, toS), 0.0, site.dMax)
      && LiveReplay(site, Simplest(site, history))
         == Clamp(EvaporatedMm(site, (a + b) / 2.0, fromS, toS), 0.0, site.dMax)
  {
    var first, second := Recorded(fromS, Temperature, a), Recorded(toS, Temperature, b);
    TwoObserved(site, first, second);
    var os := Simplest(site, [first, second]);
    hide EvaporatedMm, Replay, LiveReplay, Simplest;
    TwoEvents(site, os[0], os[1]);
  }

  lemma MillimetresPerHour(site: Site, temp: real)
    requires site.alpha == 24.0 && site.tBase == 0.0 && temp >= 0.0
    ensures EvaporatedMm(site, temp, 0.0, 3600.0) == temp
  {
    assert EtHourly(site, temp) == temp && Hours(0.0, 3600.0) == 1.0;
  }

  /** Thirty degrees, then none: the replay shows 30 mm where the live path shows 15. */
  lemma ReplayCanShowMore()
    ensures var site := Site(24.0, 0.0, 100.0, Accumulator);
      var history := [Recorded(0.0, Temperature, 30.0), Recorded(3600.0, Temperature, 0.0)];
      Replay(site, history) == 30.0 && LiveReplay(site, Simplest(site, history)) == 15.0
  {
    var site := Site(24.0, 0.0, 100.0, Accumulator);
    hide EvaporatedMm, Replay, LiveReplay, Simplest;
    ReadingsEvaporateUnalike(site, 30.0, 0.0, 0.0, 3600.0);
    MillimetresPerHour(site, 30.0);
    MillimetresPerHour(site, 15.0);
  }

  /** A temperature, then the first rain reading. */
  lemma ReadingThenRain(site: Site, a: real, rain: real, fromS: real, toS: real)
    requires site.dMax >= 0.0 && site.rainType == Accumulator
    ensures var history := [Recorded(fromS, Temperature, a), Recorded(toS, Rain, rain)];
      var evaporated := Clamp(EvaporatedMm(site, a, fromS, toS), 0.0, site.dMax);
      && Replay(site, history) == Dried(evaporated - Dried(rain))
      && LiveReplay(site, Simplest(site, history)) == evaporated
  {
    var first, second := Recorded(fromS, Temperature, a), Recorded(toS, Rain, rain);
    TwoObserved(site, first, second);
    var os := Simplest(site, [first, second]);
    hide EvaporatedMm, Replay, LiveReplay, Simplest;
    TwoEvents(site, os[0], os[1]);
  }

  /** A millimetre evaporated, then a first reading of five: the replay ends dry, the live path does not. */
  lemma ReplayCreditsFirstReading()
    ensures var site := Site(24.0, 0.0, 10.0, Accumulator);
      var history := [Recorded(0.0, Temperature, 1.0), Recorded(3600.0, Rain, 5.0)];
      Replay(site, history) == 0.0 && LiveReplay(site, Simplest(site, history)) == 1.0
  {
    var site := Site(24.0, 0.0, 10.0, Accumulator);
    hide EvaporatedMm, Replay, LiveReplay, Simplest;
    ReadingThenRain(site, 1.0, 5.0, 0.0, 3600.0);
    MillimetresPerHour(site, 1.0);
  }

  /** A shower recorded before anything has evaporated is credited by the replay alone, and changes nothing. */
  lemma EarlyShowerChangesNothing(site: Site, r: Recorded)
    requires site.rainType == Accumulator && site.dMax >= 0.0 && r.kind == Rain
    ensures Replay(site, [r]) == LiveReplay(site, Simplest(site, [r])) == 0.0
  {
    BackfillRainIsNotNegative(Accumulator, r.value, 0.0);
    assert [r][1..] == [] && [r][..0] == [];
    assert ReplayFrom(site, Start([r]), [r]) == Replayed(site, Start([r]), r);
    assert Standing([]) == None && Standing([r]) == None && Buffered([r]) == Buffered([]);
    assert Simplest(site, [r]) == [Observation(r, None)];
    var o := Observation(r, None);
    assert [o][..0] == [] && LiveFrom(site, LIVE_START, [o]) == Lived(site, LIVE_START, o);
  }

  // ---------- Evaporation and rain in their own terms

  /** A day at a temperature evaporates the site's rate for every degree above its base, and nothing below it. */
  lemma DayEvaporates(site: Site, temp: real, fromS: real)
    requires site.alpha >= 0.0
    ensures temp >= site.tBase ==> EvaporatedMm(site, temp, fromS, fromS + 86400.0) == site.alpha * (temp - site.tBase)
    ensures temp <= site.tBase ==> EvaporatedMm(site, temp, fromS, fromS + 86400.0) == 0.0
  {
    var rate := site.alpha * (temp - site.tBase);
    assert Hours(fromS, fromS + 86400.0) == 24.0;
    SignOfProduct(site.alpha, temp - site.tBase);
    assert rate / 24.0 * 24.0 == rate;
  }

  lemma SignOfProduct(a: real, d: real)
    requires a >= 0.0
    ensures d >= 0.0 ==> a * d >= 0.0
    ensures d <= 0.0 ==> a * d <= 0.0
  {
    if d <= 0.0 {
      var e := -d;
      assert a * e >= 0.0 && a * d == -(a * e);
    }
  }

  /** Evaporation is in proportion to the time it takes. */
  lemma TimeEvaporates(site: Site, temp: real, fromS: real, midS: real, toS: real)
    ensures EvaporatedMm(site, temp, fromS, midS) + EvaporatedMm(site, temp, midS, toS)
         == EvaporatedMm(site, temp, fromS, toS)
  {
    var rate, h, h' := EtHourly(site, temp), Hours(fromS, midS), Hours(midS, toS);
    assert Hours(fromS, toS) == h + h';
    assert rate * (h + h') == rate * h + rate * h';
  }

  /** A sensor of single events credits each reading in full, unless it repeats the one before. */
  lemma EventsCountInFull(now: real, last: real)
    ensures now != last && now > 0.0 ==> BackfillRain(EventType, now, last) == now
    ensures now == last || now <= 0.0 ==> BackfillRain(EventType, now, last) == 0.0
  {
  }

  // ---------- The rain credited, in all

  /** All the rain credited for a series of readings of an accumulator, from a known level. */
  function RainFrom(last: real, readings: seq<real>): real
    decreases |readings|
  {
    if readings == [] then 0.0 else LiveRain(readings[0], Some(last)) + RainFrom(readings[0], readings[1..])
  }

  /** How far an accumulator fell, in all, at resets and roll-offs. */
  function Drops(last: real, readings: seq<real>): real
    decreases |readings|
  {
    if readings == [] then 0.0
    else (if readings[0] < last then last - readings[0] else 0.0) + Drops(readings[0], readings[1..])
  }

  /** The live credit is the rise of the accumulator, with every fall given back: none is lost or invented. */
  lemma {:induction false} RainIsRisePlusDrops(last: real, readings: seq<real>)
    ensures RainFrom(last, readings)
         == (if readings == [] then last else readings[|readings| - 1]) - last + Drops(last, readings)
    decreases |readings|
  {
    if readings != [] {
      RainIsRisePlusDrops(readings[0], readings[1..]);
    }
  }
}
