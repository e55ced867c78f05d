/**
 The zone: a deficit, the counters of the water it was given, and the cycle around a delivery.

 `State` is a zone's fields as a value, and each operation is a function on it; the class carries
 the operations out in place. The accounting laws are proved on the values: what any run of
 ticks, readings and live credits leaves of a cycle, and when its two ways of closing agree.
 */
module Zone {
  import opened Wrappers
  import opened Rounding

  function Clamp(value: real, lower: real, upper: real): real {
    var capped := if value <= upper then value else upper;
    if capped >= lower then capped else lower
  }

  /** A deficit in millimetres with the reservoir it is clamped to. */
  datatype Deficit = Deficit(valueMm: real, dMax: real) {
    function Clamped(): Deficit {
      this.(valueMm := Clamp(valueMm, 0.0, dMax))
    }
  }

  datatype Counters = Counters(lastVolumeL: real, sessionWaterL: real, totalWaterL: real,
                               yearlyWaterL: real, yearlyYear: Option<int>)

  /** A point in time, with the calendar year it falls in. */
  datatype Stamp = Stamp(atS: real, year: int)

  datatype State = State(
    areaM2: real, efficiency: real, dMax: real, receivesRain: bool,
    deficit: Deficit, measured: Option<Deficit>, baselineMm: Option<real>,
    counters: Counters, lastIrrigated: Option<Stamp>, lastSource: string, lastDurationS: int)

  // ---------- The operations on values

  function CreditedCounters(c: Counters, liters: real, year: int): Counters {
    var credited := RoundTenth(liters);
    var yearly := if c.yearlyYear == Some(year) then c.yearlyWaterL else 0.0;
    Counters(credited, c.sessionWaterL, c.totalWaterL + credited, yearly + credited, Some(year))
  }

  function ActingMm(z: State): real {
    if z.measured.Some? then z.measured.value.valueMm else z.deficit.valueMm
  }

  /** One millimetre over one square metre is one litre, divided by the share that reaches the roots. */
  function LitersFor(mm: real, areaM2: real, efficiency: real): real {
    if efficiency <= 0.0 then 0.0 else mm * areaM2 / efficiency
  }

  function MmFrom(liters: real, areaM2: real, efficiency: real): real {
    if areaM2 <= 0.0 then 0.0 else liters * efficiency / areaM2
  }

  /** The litres that clear the deficit the zone is acting on. */
  function DemandL(z: State): real {
    LitersFor(ActingMm(z), z.areaM2, z.efficiency)
  }

  function DeliveredMm(z: State, liters: real): real {
    MmFrom(liters, z.areaM2, z.efficiency)
  }

  function Accumulated(z: State, dtH: real, etH: real, kc: real, rainMm: real): State {
    var rain := if z.receivesRain then rainMm else 0.0;
    z.(deficit := z.deficit.(valueMm := z.deficit.valueMm + etH * kc * dtH - rain).Clamped())
  }

  /** A broadcast of the site: a water-balance step, or the site's own deficit when all is zero. */
  function Ticked(z: State, dtH: real, etH: real, kc: real, rainMm: real, siteMm: real): State {
    if dtH == 0.0 && etH == 0.0 && rainMm == 0.0 then
      z.(deficit := z.deficit.(valueMm := siteMm * kc))
    else
      z.(deficit := z.deficit.(valueMm := Clamp(z.deficit.valueMm + etH * kc * dtH - rainMm, 0.0, z.dMax)))
  }

  function Begun(z: State): State {
    z.(baselineMm := Some(ActingMm(z)))
  }

  function Credited(z: State, liters: real): State {
    var baseline := if z.baselineMm.Some? then z.baselineMm.value else ActingMm(z);
    z.(deficit := z.deficit.(valueMm := baseline - DeliveredMm(z, liters)).Clamped(), measured := None)
  }

  /** A live credit during a metered run: skipped outside a cycle and without an area. */
  function CreditedLive(z: State, liters: real): State {
    if z.baselineMm.None? || z.areaM2 <= 0.0 then z
    else Credited(z, liters).(counters := z.counters.(sessionWaterL := RoundTenth(liters)))
  }

  function Closed(z: State, liters: real, source: string, at: Stamp, durationS: int): State {
    z.(counters := CreditedCounters(z.counters, liters, at.year).(sessionWaterL := 0.0),
       lastIrrigated := Some(at), lastSource := source, lastDurationS := durationS, baselineMm := None)
  }

  function Settled(z: State, liters: real, source: string, at: Stamp, durationS: int): State {
    Closed(Credited(z, liters), liters, source, at, durationS)
  }

  function MarkedIrrigated(z: State, credited: Option<real>, source: string, at: Stamp, durationS: Option<int>): State {
    var liters := if credited.Some? then credited.value else DemandL(z);
    var duration := if durationS.Some? then durationS.value else z.lastDurationS;
    Closed(z.(deficit := z.deficit.(valueMm := 0.0).Clamped(), measured := None), liters, source, at, duration)
  }

  // ---------- The objects

  class WaterCounters {
    var lastVolumeL: real
    var sessionWaterL: real
    var totalWaterL: real
    var yearlyWaterL: real
    var yearlyYear: Option<int>

    ghost function Value(): Counters
      reads this
    {
      Counters(lastVolumeL, sessionWaterL, totalWaterL, yearlyWaterL, yearlyYear)
    }

    constructor ()
      ensures Value() == Counters(0.0, 0.0, 0.0, 0.0, None)
    {
      lastVolumeL, sessionWaterL, totalWaterL, yearlyWaterL, yearlyYear := 0.0, 0.0, 0.0, 0.0, None;
    }

    method Credit(liters: real, year: int)
      modifies this
      ensures Value() == CreditedCounters(old(Value()), liters, year)
    {
      var credited := RoundTenth(liters);
      lastVolumeL := credited;
      totalWaterL := totalWaterL + credited;
      if yearlyYear != Some(year) {
        yearlyWaterL := 0.0;
        yearlyYear := Some(year);
      }
      yearlyWaterL := yearlyWaterL + credited;
    }
  }

  class Zone {
    const areaM2: real
    const efficiency: real
    const dMax: real
    const receivesRain: bool
    const counters: WaterCounters
    var deficit: Deficit
    var measured: Option<Deficit>
    var baselineMm: Option<real>
    var lastIrrigated: Option<Stamp>
    var lastSource: string
    var lastDurationS: int

    ghost function Value(): State
      reads this, counters
    {
      State(areaM2, efficiency, dMax, receivesRain, deficit, measured, baselineMm,
            counters.Value(), lastIrrigated, lastSource, lastDurationS)
    }

    /** No deficit, no water counted, no cycle. */
    constructor (areaM2: real, efficiency: real, dMax: real, receivesRain: bool)
      ensures fresh(counters)
      ensures Value() == State(areaM2, efficiency, dMax, receivesRain, Deficit(0.0, dMax), None, None,
                               Counters(0.0, 0.0, 0.0, 0.0, None), None, "", 0)
    {
      this.areaM2, this.efficiency, this.dMax, this.receivesRain := areaM2, efficiency, dMax, receivesRain;
      counters := new WaterCounters();
      deficit, measured, baselineMm := Deficit(0.0, dMax), None, None;
      lastIrrigated, lastSource, lastDurationS := None, "", 0;
    }

    method Acting() returns (mm: real)
      ensures mm == ActingMm(Value())
    {
      mm := if measured.Some? then measured.value.valueMm else deficit.valueMm;
    }

    method WaterDemandL() returns (liters: real)
      ensures liters == DemandL(Value())
    {
      var mm := Acting();
      liters := LitersFor(mm, areaM2, efficiency);
    }

    method Accumulate(dtH: real, etH: real, kc: real, rainMm: real)
      modifies this`deficit
      ensures Value() == Accumulated(old(Value()), dtH, etH, kc, rainMm)
    {
      var rain := if receivesRain then rainMm else 0.0;
      var advanced := deficit.valueMm + etH * kc * dtH - rain;
      deficit := deficit.(valueMm := advanced).Clamped();
    }

    method OnEtUpdate(dtH: real, etH: real, kc: real, rainMm: real, siteMm: real)
      modifies this`deficit
      ensures Value() == Ticked(old(Value()), dtH, etH, kc, rainMm, siteMm)
    {
      if dtH == 0.0 && etH == 0.0 && rainMm == 0.0 {
        deficit := deficit.(valueMm := siteMm * kc);
      } else {
        deficit := deficit.(valueMm := Clamp(deficit.valueMm + etH * kc * dtH - rainMm, 0.0, dMax));
      }
    }

    /** The soil's own answer arrives, or is withdrawn. */
    method SetMeasured(reading: Option<Deficit>)
      modifies this`measured
      ensures Value() == old(Value()).(measured := reading)
    {
      measured := reading;
    }

    method BeginCycle()
      modifies this`baselineMm
      ensures Value() == Begun(old(Value()))
    {
      var mm := Acting();
      baselineMm := Some(mm);
    }

    method CreditDelivery(liters: real)
      modifies this`deficit, this`measured
      ensures Value() == Credited(old(Value()), liters)
    {
      var baseline;
      if baselineMm.Some? { baseline := baselineMm.value; } else { baseline := Acting(); }
      deficit := deficit.(valueMm := baseline - MmFrom(liters, areaM2, efficiency)).Clamped();
      measured := None;
    }

    method UpdateRealtime(liters: real)
      modifies this`deficit, this`measured, counters`sessionWaterL
      ensures Value() == CreditedLive(old(Value()), liters)
    {
      if baselineMm.None? || areaM2 <= 0.0 {
        return;
      }
      CreditDelivery(liters);
      counters.sessionWaterL := RoundTenth(liters);
    }

    method Settle(liters: real, source: string, at: Stamp, durationS: int)
      modifies this, counters
      ensures Value() == Settled(old(Value()), liters, source, at, durationS)
    {
      CreditDelivery(liters);
      counters.Credit(liters, at.year);
      counters.sessionWaterL := 0.0;
      lastIrrigated, lastSource, lastDurationS := Some(at), source, durationS;
      baselineMm := None;
    }

    method MarkIrrigated(credited: Option<real>, source: string, at: Stamp, durationS: Option<int>)
      modifies this, counters
      ensures Value() == MarkedIrrigated(old(Value()), credited, source, at, durationS)
    {
      var liters;
      if credited.Some? { liters := credited.value; } else { liters := WaterDemandL(); }
      deficit := deficit.(valueMm := 0.0).Clamped();
      measured := None;
      counters.Credit(liters, at.year);
      counters.sessionWaterL := 0.0;
      lastIrrigated, lastSource := Some(at), source;
      if durationS.Some? {
        lastDurationS := durationS.value;
      }
      baselineMm := None;
    }

    /** Something reaches the zone while its cycle is open. */
    method Happen(e: CycleEvent)
      modifies this`deficit, this`measured, counters`sessionWaterL
      ensures Value() == Happened(old(Value()), e)
    {
      match e
      case Tick(dtH, etH, kc, rainMm, siteMm) => OnEtUpdate(dtH, etH, kc, rainMm, siteMm);
      case Advance(stepH, rateH, coefficient, rain) => Accumulate(stepH, rateH, coefficient, rain);
      case LiveCredit(liters) => UpdateRealtime(liters);
      case SoilReading(reading) => SetMeasured(reading);
    }

    method HappenAll(events: seq<CycleEvent>)
      modifies this`deficit, this`measured, counters`sessionWaterL
      ensures Value() == AfterAll(old(Value()), events)
    {
      for n := 0 to |events|
        invariant Value() == AfterAll(old(Value()), events[..n])
      {
        assert events[..n + 1][..n] == events[..n];
        Happen(events[n]);
      }
      assert events[..|events|] == events;
    }

    method EndCycle()
      modifies this`baselineMm
      ensures Value() == old(Value()).(baselineMm := None)
    {
      baselineMm := None;
    }
  }

  // ---------- A cycle, whatever happens inside it

  /** What can reach a zone between the start of its cycle and its close. */
  datatype CycleEvent =
    | Tick(dtH: real, etH: real, kc: real, rainMm: real, siteMm: real)
    | Advance(stepH: real, rateH: real, coefficient: real, rain: real)
    | LiveCredit(liters: real)
    | SoilReading(reading: Option<Deficit>)

  function Happened(z: State, e: CycleEvent): State {
    match e
    case Tick(dtH, etH, kc, rainMm, siteMm) => Ticked(z, dtH, etH, kc, rainMm, siteMm)
    case Advance(stepH, rateH, coefficient, rain) => Accumulated(z, stepH, rateH, coefficient, rain)
    case LiveCredit(liters) => CreditedLive(z, liters)
    case SoilReading(reading) => z.(measured := reading)
  }

  function AfterAll(z: State, events: seq<CycleEvent>): State {
    if events == [] then z else Happened(AfterAll(z, events[..|events| - 1]), events[|events| - 1])
  }

  lemma {:induction false} AfterBoth(z: State, a: seq<CycleEvent>, b: seq<CycleEvent>)
    ensures AfterAll(z, a + b) == AfterAll(AfterAll(z, a), b)
  {
    if b == [] {
      assert a + b == a;
    } else {
      assert (a + b)[..|a + b| - 1] == a + b[..|b| - 1];
      AfterBoth(z, a, b[..|b| - 1]);
    }
  }

  /** Nothing inside a cycle reaches what its close depends on. */
  ghost predicate SameCycle(a: State, b: State) {
    && b == a.(deficit := b.deficit, measured := b.measured, counters := b.counters)
    && b.deficit.dMax == a.deficit.dMax
    && b.counters == a.counters.(sessionWaterL := b.counters.sessionWaterL)
  }

  lemma {:induction false} EventsKeepTheCycle(z: State, events: seq<CycleEvent>)
    ensures SameCycle(z, AfterAll(z, events))
  {
    if events != [] { EventsKeepTheCycle(z, events[..|events| - 1]); }
  }

  /**
   Closing a cycle undoes whatever happened to the deficit inside it: any interleaving of ticks,
   soil readings and live credits, then settling, is one settlement of the snapshot. The counters
   move once, for the final figure only.
   */
  lemma SettleIgnoresInterleaving(z: State, events: seq<CycleEvent>, liters: real, source: string, at: Stamp,
                                  durationS: int)
    ensures Settled(AfterAll(Begun(z), events), liters, source, at, durationS)
         == Settled(Begun(z), liters, source, at, durationS)
  {
    hide MmFrom, AfterAll, CreditedCounters;
    EventsKeepTheCycle(Begun(z), events);
    CountersCloseAlike(z.counters, AfterAll(Begun(z), events).counters, liters, at.year);
  }

  lemma CountersCloseAlike(a: Counters, b: Counters, liters: real, year: int)
    requires b == a.(sessionWaterL := b.sessionWaterL)
    ensures CreditedCounters(a, liters, year).(sessionWaterL := 0.0)
         == CreditedCounters(b, liters, year).(sessionWaterL := 0.0)
  {
  }

  lemma MarkIgnoresInterleaving(z: State, events: seq<CycleEvent>, liters: real, source: string, at: Stamp,
                                durationS: int)
    ensures MarkedIrrigated(AfterAll(Begun(z), events), Some(liters), source, at, Some(durationS))
         == MarkedIrrigated(Begun(z), Some(liters), source, at, Some(durationS))
  {
    hide AfterAll, CreditedCounters;
    EventsKeepTheCycle(Begun(z), events);
    CountersCloseAlike(z.counters, AfterAll(Begun(z), events).counters, liters, at.year);
  }

  /** Inside a cycle a live credit, too, starts over from the snapshot, whatever came before it. */
  lemma LiveCreditStartsOver(z: State, events: seq<CycleEvent>, liters: real)
    requires z.baselineMm.Some? && z.areaM2 > 0.0
    ensures CreditedLive(AfterAll(z, events), liters) == CreditedLive(z, liters)
  {
    hide MmFrom, AfterAll;
    EventsKeepTheCycle(z, events);
  }

  lemma DivideBoth(a: real, b: real, n: real)
    requires n > 0.0
    ensures a / n <= b <==> a <= b * n
  {
    assert a == a / n * n;
    var d := b - a / n;
    assert d * n == b * n - a;
    if d >= 0.0 { assert d * n >= 0.0; } else { assert d * n < 0.0; }
  }

  /** The delivered millimetres reach the deficit exactly when the litres reach the demand. */
  lemma DemandIsInverse(z: State, liters: real)
    requires z.areaM2 > 0.0 && z.efficiency > 0.0
    ensures DeliveredMm(z, liters) >= ActingMm(z) <==> liters >= DemandL(z)
  {
    var mm := ActingMm(z);
    DivideBoth(mm * z.areaM2, liters, z.efficiency);
    DivideBoth(-(liters * z.efficiency), -mm, z.areaM2);
    assert -(liters * z.efficiency) / z.areaM2 == -(liters * z.efficiency / z.areaM2);
  }

  /** Settling leaves nothing owed exactly when the delivery met the demand it was started for. */
  lemma SettledInFull(z: State, liters: real, source: string, at: Stamp, durationS: int)
    requires z.areaM2 > 0.0 && z.efficiency > 0.0 && z.deficit.dMax > 0.0
    ensures Settled(Begun(z), liters, source, at, durationS).deficit.valueMm == 0.0 <==> liters >= DemandL(z)
  {
    hide MmFrom, LitersFor, CreditedCounters;
    DemandIsInverse(z, liters);
  }

  /**
   The two branches that close a cycle agree: once the delivery has reached the target taken at
   the start, crediting it and declaring the zone full leave the same zone, field for field.
   */
  lemma ClosingBranchesAgree(z: State, events: seq<CycleEvent>, liters: real, source: string, at: Stamp, durationS: int)
    requires z.areaM2 > 0.0 && z.efficiency > 0.0
    requires liters >= DemandL(z)
    ensures Settled(AfterAll(Begun(z), events), liters, source, at, durationS)
         == MarkedIrrigated(AfterAll(Begun(z), events), Some(liters), source, at, Some(durationS))
  {
    hide MmFrom, LitersFor, CreditedCounters, AfterAll;
    SettleIgnoresInterleaving(z, events, liters, source, at, durationS);
    MarkIgnoresInterleaving(z, events, liters, source, at, durationS);
    DemandIsInverse(z, liters);
  }

  /** Outside a cycle nothing protects a repeated credit: it is subtracted again. */
  lemma CreditsAddUpOutsideACycle(z: State, a: real, b: real)
    requires z.baselineMm.None? && z.measured.None? && z.areaM2 > 0.0
    requires 0.0 <= z.deficit.valueMm - DeliveredMm(z, a) <= z.deficit.dMax
    ensures Credited(Credited(z, a), b) == Credited(z, a + b)
  {
    MmAddUp(a, b, z.areaM2, z.efficiency);
    hide MmFrom;
  }

  lemma MmAddUp(a: real, b: real, areaM2: real, efficiency: real)
    requires areaM2 > 0.0
    ensures MmFrom(a + b, areaM2, efficiency) == MmFrom(a, areaM2, efficiency) + MmFrom(b, areaM2, efficiency)
  {
    var x, y := a * efficiency, b * efficiency;
    assert (a + b) * efficiency == x + y;
    assert (x + y) / areaM2 == x / areaM2 + y / areaM2;
  }

  // ---------- Litres, millimetres and the number acted on

  /** The soil's own answer, where there is one, is what a cycle starts from; the estimate otherwise. */
  lemma ProbeWins(z: State, reading: Deficit)
    ensures Begun(z.(measured := Some(reading))).baselineMm == Some(reading.valueMm)
    ensures Begun(z.(measured := None)).baselineMm == Some(z.deficit.valueMm)
  {
  }

  /** The demand in litres times the share that arrives is the deficit acted on times the area. */
  lemma DemandInLitres(z: State)
    ensures z.efficiency > 0.0 ==> DemandL(z) * z.efficiency == ActingMm(z) * z.areaM2
    ensures z.efficiency <= 0.0 ==> DemandL(z) == 0.0
  {
    if z.efficiency > 0.0 { DividedBack(ActingMm(z) * z.areaM2, z.efficiency); }
  }

  lemma DividedBack(a: real, b: real)
    requires b > 0.0
    ensures a / b * b == a
  {
  }

  /**
   A credit in a cycle takes the litres that arrived off the litres the snapshot stands for, down to
   nothing and up to the reservoir.
   */
  lemma CreditInLitres(z: State, liters: real, baselineMm: real)
    requires z.areaM2 > 0.0 && z.baselineMm == Some(baselineMm) && z.deficit.dMax >= 0.0
    ensures var left := Credited(z, liters).deficit.valueMm;
      var exact := baselineMm * z.areaM2 - liters * z.efficiency;
      && (exact <= 0.0 ==> left == 0.0)
      && (exact >= z.deficit.dMax * z.areaM2 ==> left == z.deficit.dMax)
      && (0.0 <= exact <= z.deficit.dMax * z.areaM2 ==> left * z.areaM2 == exact)
    ensures Credited(z, liters) == z.(deficit := Credited(z, liters).deficit, measured := None)
  {
    var mm := DeliveredMm(z, liters);
    DividedBack(liters * z.efficiency, z.areaM2);
    assert mm * z.areaM2 == liters * z.efficiency;
    hide MmFrom;
    ClampScaled(baselineMm, mm, z.deficit.dMax, z.areaM2);
  }

  lemma ClampScaled(baselineMm: real, mm: real, dMax: real, areaM2: real)
    requires areaM2 > 0.0 && dMax >= 0.0
    ensures var left, exact := Clamp(baselineMm - mm, 0.0, dMax), baselineMm * areaM2 - mm * areaM2;
      && (exact <= 0.0 ==> left == 0.0)
      && (exact >= dMax * areaM2 ==> left == dMax)
      && (0.0 <= exact <= dMax * areaM2 ==> left * areaM2 == exact)
  {
    var d := baselineMm - mm;
    assert d * areaM2 == baselineMm * areaM2 - mm * areaM2;
    if d > 0.0 { assert d * areaM2 > 0.0; }
    if d < 0.0 { assert -d * areaM2 > 0.0; }
    var e := dMax - d;
    assert e * areaM2 == dMax * areaM2 - d * areaM2;
    if e > 0.0 { assert e * areaM2 > 0.0; }
    if e < 0.0 { assert -e * areaM2 > 0.0; }
  }

  /** Rain reaches only a zone open to the sky, and there it is a broadcast's step. */
  lemma RainNeedsTheSky(z: State, dtH: real, etH: real, kc: real, rainMm: real, siteMm: real)
    ensures !z.receivesRain ==> Accumulated(z, dtH, etH, kc, rainMm) == Accumulated(z, dtH, etH, kc, 0.0)
    ensures z.receivesRain && z.deficit.dMax == z.dMax && !(dtH == 0.0 && etH == 0.0 && rainMm == 0.0)
      ==> Accumulated(z, dtH, etH, kc, rainMm) == Ticked(z, dtH, etH, kc, rainMm, siteMm)
  {
  }

  /** An all-zero broadcast takes over the site's deficit, unclamped, and nothing else. */
  lemma ZeroTickCopiesTheSite(z: State, kc: real, siteMm: real)
    ensures Ticked(z, 0.0, 0.0, kc, 0.0, siteMm) == z.(deficit := z.deficit.(valueMm := siteMm * kc))
  {
  }

  // ---------- The counters over a whole life

  /** The two ways a session closes: a measured delivery, or the zone declared full. */
  datatype Closing =
    | Delivered(liters: real, source: string, at: Stamp, durationS: int)
    | DeclaredFull(measuredL: Option<real>, source: string, at: Stamp, lastedS: Option<int>)

  /** What reaches a zone before its session closes, and the closing. */
  datatype Session = Session(meanwhile: seq<CycleEvent>, closing: Closing)

  function ClosedBy(z: State, c: Closing): State {
    match c
    case Delivered(liters, source, at, durationS) => Settled(z, liters, source, at, durationS)
    case DeclaredFull(measuredL, source, at, lastedS) => MarkedIrrigated(z, measuredL, source, at, lastedS)
  }

  function AfterSessions(z: State, ss: seq<Session>): State {
    if ss == [] then z
    else ClosedBy(AfterAll(AfterSessions(z, ss[..|ss| - 1]), ss[|ss| - 1].meanwhile), ss[|ss| - 1].closing)
  }

  /** The litres a closing stands for: those measured, or else what the zone was asking for. */
  function VolumeL(z: State, c: Closing): real {
    match c
    case Delivered(liters, _, _, _) => liters
    case DeclaredFull(measuredL, _, _, _) => if measuredL.Some? then measuredL.value else DemandL(z)
  }

  /** The volumes of a life, rounded to a tenth, oldest first. */
  function Volumes(z: State, ss: seq<Session>): (r: seq<real>)
    ensures |r| == |ss|
  {
    if ss == [] then []
    else
      var before := ss[..|ss| - 1];
      var last := ss[|ss| - 1];
      Volumes(z, before) + [RoundTenth(VolumeL(AfterAll(AfterSessions(z, before), last.meanwhile), last.closing))]
  }

  function TotalOf(xs: seq<real>): real {
    if xs == [] then 0.0 else TotalOf(xs[..|xs| - 1]) + xs[|xs| - 1]
  }

  /** What one closing leaves in the counters, whatever they were told in between. */
  lemma ClosingCounts(z: State, s: Session)
    ensures var y, z' := AfterAll(z, s.meanwhile), ClosedBy(AfterAll(z, s.meanwhile), s.closing);
      var credited := RoundTenth(VolumeL(y, s.closing));
      && z'.counters.lastVolumeL == credited
      && z'.counters.sessionWaterL == 0.0
      && z'.counters.totalWaterL == z.counters.totalWaterL + credited
      && z'.counters.yearlyWaterL
         == (if z.counters.yearlyYear == Some(s.closing.at.year) then z.counters.yearlyWaterL else 0.0) + credited
      && z'.counters.yearlyYear == Some(s.closing.at.year)
      && z'.lastIrrigated == Some(s.closing.at) && z'.lastSource == s.closing.source && z'.baselineMm == None
  {
    EventsKeepTheCycle(z, s.meanwhile);
    hide AfterAll, RoundTenth, LitersFor, MmFrom;
  }

  /** The lifetime total has grown by all the volumes there ever were. */
  lemma {:induction false} LifetimeTotal(z: State, ss: seq<Session>)
    ensures AfterSessions(z, ss).counters.totalWaterL == z.counters.totalWaterL + TotalOf(Volumes(z, ss))
  {
    if ss != [] {
      var before := ss[..|ss| - 1];
      LifetimeTotal(z, before);
      ClosingCounts(AfterSessions(z, before), ss[|ss| - 1]);
      assert Volumes(z, ss)[..|ss| - 1] == Volumes(z, before);
      hide RoundTenth, VolumeL, AfterAll, ClosedBy;
    }
  }

  /** The sessions from `j` on are those since the calendar year last changed. */
  ghost predicate SinceNewYear(ss: seq<Session>, j: int) {
    && 0 <= j < |ss|
    && (forall i :: j <= i < |ss| ==> ss[i].closing.at.year == ss[|ss| - 1].closing.at.year)
    && (j > 0 ==> ss[j - 1].closing.at.year != ss[|ss| - 1].closing.at.year)
  }

  /** The yearly figure is the volumes since then, and what the year had already when the life began. */
  lemma {:induction false} YearlyTotal(z: State, ss: seq<Session>, j: int)
    requires SinceNewYear(ss, j)
    ensures var year := ss[|ss| - 1].closing.at.year;
      var carried := if j == 0 && z.counters.yearlyYear == Some(year) then z.counters.yearlyWaterL else 0.0;
      && AfterSessions(z, ss).counters.yearlyWaterL == carried + TotalOf(Volumes(z, ss)[j..])
      && AfterSessions(z, ss).counters.yearlyYear == Some(year)
  {
    var n := |ss| - 1;
    var before := ss[..n];
    SessionCounts(z, ss);
    hide AfterSessions, Volumes, SinceNewYear;
    TotalFrom(Volumes(z, ss), j);
    YearBounds(ss, j);
    if j < n {
      YearlyTotal(z, before, j);
    } else if n > 0 {
      YearOfLast(z, before);
    }
  }

  lemma YearBounds(ss: seq<Session>, j: int)
    requires SinceNewYear(ss, j)
    ensures var n := |ss| - 1;
      && 0 <= j <= n
      && (j < n ==> SinceNewYear(ss[..n], j) && ss[n - 1].closing.at.year == ss[n].closing.at.year)
      && (j == n > 0 ==> ss[n - 1].closing.at.year != ss[n].closing.at.year)
  {
  }

  /** One more session, told apart from those before it. */
  lemma SessionCounts(z: State, ss: seq<Session>)
    requires ss != []
    ensures var n, y, z' := |ss| - 1, AfterSessions(z, ss[..|ss| - 1]), AfterSessions(z, ss);
      && Volumes(z, ss)[..n] == Volumes(z, ss[..n])
      && z'.counters.yearlyWaterL
         == (if y.counters.yearlyYear == Some(ss[n].closing.at.year) then y.counters.yearlyWaterL else 0.0)
            + Volumes(z, ss)[n]
      && z'.counters.yearlyYear == Some(ss[n].closing.at.year)
      && (n == 0 ==> y == z)
  {
    ClosingCounts(AfterSessions(z, ss[..|ss| - 1]), ss[|ss| - 1]);
    hide AfterAll, ClosedBy, RoundTenth, VolumeL;
  }

  lemma TotalFrom(xs: seq<real>, j: int)
    requires 0 <= j < |xs|
    ensures TotalOf(xs[j..]) == TotalOf(xs[..|xs| - 1][j..]) + xs[|xs| - 1]
  {
    assert xs[j..][..|xs| - j - 1] == xs[..|xs| - 1][j..];
  }

  lemma YearOfLast(z: State, ss: seq<Session>)
    requires ss != []
    ensures AfterSessions(z, ss).counters.yearlyYear == Some(ss[|ss| - 1].closing.at.year)
  {
    ClosingCounts(AfterSessions(z, ss[..|ss| - 1]), ss[|ss| - 1]);
    hide AfterAll, ClosedBy;
  }

  /** The last volume, the stamp and the source are the newest session's; the running figure is zero. */
  lemma NewestSession(z: State, ss: seq<Session>)
    requires ss != []
    ensures var z', last := AfterSessions(z, ss), ss[|ss| - 1].closing;
      && z'.counters.lastVolumeL == Volumes(z, ss)[|ss| - 1] && z'.counters.sessionWaterL == 0.0
      && z'.lastIrrigated == Some(last.at) && z'.lastSource == last.source && z'.baselineMm == None
  {
    ClosingCounts(AfterSessions(z, ss[..|ss| - 1]), ss[|ss| - 1]);
    hide AfterAll, ClosedBy, RoundTenth, VolumeL;
  }

  /** A duration is written where one is known, and left alone otherwise. */
  lemma DurationIfKnown(z: State, s: Session)
    ensures var y := AfterAll(z, s.meanwhile);
      ClosedBy(y, s.closing).lastDurationS
      == match s.closing
         case Delivered(_, _, _, durationS) => durationS
         case DeclaredFull(_, _, _, lastedS) => if lastedS.Some? then lastedS.value else z.lastDurationS
  {
    EventsKeepTheCycle(z, s.meanwhile);
    hide AfterAll, CreditedCounters, MmFrom, LitersFor;
  }

  /** Declaring a zone full leaves it owing nothing, by the estimate and by the probe. */
  lemma FullOwesNothing(z: State, measuredL: Option<real>, source: string, at: Stamp, lastedS: Option<int>)
    requires z.deficit.dMax >= 0.0
    ensures var z' := MarkedIrrigated(z, measuredL, source, at, lastedS);
      z'.deficit == Deficit(0.0, z.deficit.dMax) && z'.measured == None && ActingMm(z') == 0.0
  {
  }

  /** A step of a broadcast that stays in the box is evaporation for the crop, less the rain. */
  lemma TickInMillimetres(z: State, dtH: real, etH: real, kc: real, rainMm: real, siteMm: real, evaporated: real)
    requires evaporated == etH * kc * dtH && !(dtH == 0.0 && etH == 0.0 && rainMm == 0.0)
    requires 0.0 <= z.deficit.valueMm + evaporated - rainMm <= z.dMax
    ensures Ticked(z, dtH, etH, kc, rainMm, siteMm).deficit.valueMm == z.deficit.valueMm + evaporated - rainMm
  {
  }

  /** A live credit shows in the session figure, inside a cycle; outside one it does nothing. */
  lemma LiveCreditShows(z: State, liters: real)
    ensures z.baselineMm.None? ==> CreditedLive(z, liters) == z
    ensures z.baselineMm.Some? && z.areaM2 > 0.0 ==>
      && CreditedLive(z, liters).counters == z.counters.(sessionWaterL := RoundTenth(liters))
      && CreditedLive(z, liters).deficit == Credited(z, liters).deficit
  {
    hide MmFrom, RoundTenth;
  }
}
