/**
 Collecting the silences the fleet judgement consumes, tick by tick, and learning from the
 readings themselves how much quiet is normal.

 The watch keeps three numbers per device. `Matches` ties them to the whole history of that
 device's readings, so that every verdict is a statement about everything ever observed.
 */
module FleetWatch {
  import opened Wrappers
  import opened OrderStatistics
  import opened SilenceJudgement

  const INTERVAL_HISTORY := 50

  datatype DeviceWatch = DeviceWatch(previousS: real, peakS: real, ended: seq<real>)

  /** One driver's answer at a tick: None when its silence cannot be read. */
  datatype Driver = Driver(key: string, silenceS: Option<real>)

  // ---------- What a history of readings shows

  /** A stretch of quiet ended after reading `i`: the next one is lower, so the device spoke. */
  predicate Ended(h: seq<real>, i: nat)
    requires i < |h|
  {
    i + 1 < |h| && h[i + 1] < h[i] && h[i] > 0.0
  }

  /** The last reading before each word of the device, oldest first. */
  function EndedSilences(h: seq<real>): (r: seq<real>)
    ensures forall x :: x in r ==> x > 0.0
  {
    if |h| < 2 then []
    else EndedSilences(h[..|h| - 1]) + if Ended(h, |h| - 2) then [h[|h| - 2]] else []
  }

  /** It is the longest silence of its stretch. */
  lemma {:induction false} EndedIsStretchMaximum(h: seq<real>, j: nat, i: nat)
    requires j <= i < |h|
    requires forall n :: j <= n < i ==> !(h[n + 1] < h[n])
    ensures h[j] <= h[i]
    decreases i - j
  {
    if j < i { EndedIsStretchMaximum(h, j + 1, i); }
  }

  /** What a bounded deque keeps of a run of appends. */
  function LastOf(s: seq<real>, n: nat): (r: seq<real>)
    ensures forall x :: x in r ==> x in s
    ensures |r| == if |s| <= n then |s| else n
    ensures forall i :: 0 <= i < |r| ==> r[i] == s[|s| - |r| + i]
  {
    if |s| <= n then s else s[|s| - n..]
  }

  lemma LastOfAppend(s: seq<real>, x: real, n: nat)
    requires n > 0
    ensures LastOf(LastOf(s, n) + [x], n) == LastOf(s + [x], n)
  {
  }

  ghost predicate Matches(w: DeviceWatch, h: seq<real>) {
    && w.previousS == (if h == [] then 0.0 else h[|h| - 1])
    && w.peakS == Max(0.0, w.previousS)
    && w.ended == LastOf(EndedSilences(h), INTERVAL_HISTORY)
  }

  /** What one more reading makes of a device's watch. */
  function Advance(w: DeviceWatch, silenceS: real): DeviceWatch {
    var spoke := silenceS < w.previousS;
    var ended := if spoke && w.peakS > 0.0 then LastOf(w.ended + [w.peakS], INTERVAL_HISTORY) else w.ended;
    DeviceWatch(silenceS, Max(if spoke then 0.0 else w.peakS, silenceS), ended)
  }

  lemma AdvanceMatches(w: DeviceWatch, h: seq<real>, silenceS: real)
    requires Matches(w, h)
    ensures Matches(Advance(w, silenceS), h + [silenceS])
  {
    var h' := h + [silenceS];
    assert h'[..|h'| - 1] == h;
    if h != [] && Ended(h', |h| - 1) {
      LastOfAppend(EndedSilences(h), h[|h| - 1], INTERVAL_HISTORY);
    }
  }

  // ---------- One tick of the fleet

  ghost predicate DistinctKeys(drivers: seq<Driver>) {
    forall i, j :: 0 <= i < j < |drivers| ==> drivers[i].key != drivers[j].key
  }

  /** The drivers that answered, as the fleet to judge. */
  function Answering(drivers: seq<Driver>): (f: Fleet)
    ensures |f| <= |drivers|
  {
    if drivers == [] then []
    else
      var d := drivers[|drivers| - 1];
      Answering(drivers[..|drivers| - 1]) + if d.silenceS.Some? then [Reading(d.key, d.silenceS.value)] else []
  }

  ghost predicate Has(f: Fleet, key: string) {
    exists i :: 0 <= i < |f| && f[i].name == key
  }

  lemma {:induction false} AnsweringNames(drivers: seq<Driver>)
    requires DistinctKeys(drivers)
    ensures DistinctNames(Answering(drivers))
    ensures forall i :: 0 <= i < |Answering(drivers)| ==>
      exists j :: 0 <= j < |drivers| && drivers[j].key == Answering(drivers)[i].name
  {
    if drivers != [] {
      AnsweringNames(drivers[..|drivers| - 1]);
    }
  }

  type Histories = map<string, seq<real>>

  function HistoryOf(hs: Histories, key: string): seq<real> {
    if key in hs then hs[key] else []
  }

  /** Every answering device's history gains its reading. */
  function Extended(hs: Histories, f: Fleet): Histories {
    if f == [] then hs
    else
      var before := Extended(hs, f[..|f| - 1]);
      var r := f[|f| - 1];
      before[r.name := HistoryOf(before, r.name) + [r.silenceS]]
  }

  lemma {:induction false} ExtendedKeeps(hs: Histories, f: Fleet, key: string)
    requires !Has(f, key)
    ensures HistoryOf(Extended(hs, f), key) == HistoryOf(hs, key)
    ensures key in Extended(hs, f) <==> key in hs
  {
    if f != [] {
      assert forall i :: 0 <= i < |f| - 1 ==> f[..|f| - 1][i] == f[i];
      ExtendedKeeps(hs, f[..|f| - 1], key);
      assert f[|f| - 1].name != key;
    }
  }

  /** The ended silences of the answering devices, device after device. */
  function Intervals(hs: Histories, f: Fleet): (r: seq<real>)
    ensures forall x :: x in r ==> x > 0.0
  {
    if f == [] then []
    else Intervals(hs, f[..|f| - 1]) + LastOf(EndedSilences(HistoryOf(hs, f[|f| - 1].name)), INTERVAL_HISTORY)
  }

  lemma {:induction false} IntervalsIgnoreOthers(hs: Histories, hs': Histories, f: Fleet)
    requires forall i :: 0 <= i < |f| ==> HistoryOf(hs, f[i].name) == HistoryOf(hs', f[i].name)
    ensures Intervals(hs, f) == Intervals(hs', f)
  {
    if f != [] { IntervalsIgnoreOthers(hs, hs', f[..|f| - 1]); }
  }

  /** The floor a fleet's history supports. */
  function Floor(hs: Histories, f: Fleet): Option<real> {
    SilenceFloor(Intervals(hs, f), DEFAULT_FLOOR_QUANTILE, MIN_INTERVALS_FOR_QUANTILE)
  }

  class FleetSilenceWatch {
    var watches: map<string, DeviceWatch>
    /** Every reading each device ever gave. */
    ghost var histories: Histories

    ghost predicate Valid()
      reads this
    {
      && watches.Keys == histories.Keys
      && forall key :: key in watches ==> Matches(watches[key], histories[key])
    }

    constructor ()
      ensures Valid() && histories == map[]
    {
      watches, histories := map[], map[];
    }

    /** One device's reading, answered with its ended silences. */
    method Note(key: string, silenceS: real) returns (ended: seq<real>)
      requires Valid()
      modifies this
      ensures Valid()
      ensures histories == old(histories)[key := HistoryOf(old(histories), key) + [silenceS]]
      ensures ended == LastOf(EndedSilences(histories[key]), INTERVAL_HISTORY)
    {
      var watch := if key in watches then watches[key] else DeviceWatch(0.0, 0.0, []);
      AdvanceMatches(watch, HistoryOf(histories, key), silenceS);
      watch := Advance(watch, silenceS);
      watches := watches[key := watch];
      histories := histories[key := HistoryOf(histories, key) + [silenceS]];
      ended := watch.ended;
    }

    /** Gather the answering devices' readings and the silences they have come back from. */
    method Collect(drivers: seq<Driver>) returns (fleet: Fleet, intervals: seq<real>)
      requires Valid() && DistinctKeys(drivers)
      modifies this
      ensures Valid()
      ensures fleet == Answering(drivers)
      ensures histories == Extended(old(histories), fleet)
      ensures intervals == Intervals(histories, fleet)
    {
      fleet, intervals := [], [];
      for n := 0 to |drivers|
        invariant Valid()
        invariant fleet == Answering(drivers[..n])
        invariant histories == Extended(old(histories), fleet)
        invariant intervals == Intervals(histories, fleet)
      {
        assert drivers[..n + 1][..n] == drivers[..n];
        if drivers[n].silenceS.Some? {
          var key, silenceS := drivers[n].key, drivers[n].silenceS.value;
          Newcomer(drivers, n, old(histories), silenceS);
          ghost var extended := fleet + [Reading(key, silenceS)];
          assert extended[..|extended| - 1] == fleet;
          var ended := Note(key, silenceS);
          fleet := fleet + [Reading(key, silenceS)];
          intervals := intervals + ended;
        }
      }
      assert drivers[..|drivers|] == drivers;
    }

    /** One tick: collect, learn the floor, and judge those that answered. */
    method Observe(drivers: seq<Driver>) returns (fleet: Fleet, verdicts: seq<SilenceVerdict>)
      requires Valid() && DistinctKeys(drivers)
      modifies this
      ensures Valid()
      ensures fleet == Answering(drivers) && DistinctNames(fleet)
      ensures histories == Extended(old(histories), fleet)
      ensures |verdicts| == |fleet|
      ensures Floor(histories, fleet).None? ==>
        forall i :: 0 <= i < |fleet| ==> verdicts[i] == SilenceVerdict(Unknown, fleet[i].silenceS, None, None)
      ensures Floor(histories, fleet).Some? ==>
        verdicts == JudgeFleet(fleet, Floor(histories, fleet).value, DEFAULT_SILENCE_K, DEFAULT_MIN_PEERS)
    {
      hide SilenceFloor, Intervals, Extended, Answering, Matches, DistinctKeys;
      var intervals;
      fleet, intervals := Collect(drivers);
      AnsweringNames(drivers);
      var floor := SilenceFloor(intervals, DEFAULT_FLOOR_QUANTILE, MIN_INTERVALS_FOR_QUANTILE);
      if floor.None? {
        verdicts := seq(|fleet|, i requires 0 <= i < |fleet| => SilenceVerdict(Unknown, fleet[i].silenceS, None, None));
      } else {
        verdicts := JudgeFleet(fleet, floor.value, DEFAULT_SILENCE_K, DEFAULT_MIN_PEERS);
      }
    }
  }

  /** A driver reached in the loop is not among those before it, whose intervals stay put. */
  lemma Newcomer(drivers: seq<Driver>, n: nat, hs: Histories, silenceS: real)
    requires DistinctKeys(drivers) && n < |drivers|
    ensures var f := Answering(drivers[..n]);
      var now := Extended(hs, f);
      var key := drivers[n].key;
      && !Has(f, key)
      && Intervals(now[key := HistoryOf(now, key) + [silenceS]], f) == Intervals(now, f)
  {
    var f := Answering(drivers[..n]);
    var now := Extended(hs, f);
    var key := drivers[n].key;
    AnsweringNames(drivers[..n]);
    IntervalsIgnoreOthers(now[key := HistoryOf(now, key) + [silenceS]], now, f);
  }

  /**
   What an accusation means: with the floor learned from the fleet's own history, a SILENT valve
   has been quiet for longer than at least 95% of the silences the answering devices came back
   from, one of which is the floor it exceeds.
   */
  lemma SilentOutlastsTheFleet(hs: Histories, f: Fleet, i: nat)
    requires DistinctNames(f) && i < |f|
    requires Floor(hs, f).Some?
    requires JudgeFleet(f, Floor(hs, f).value, DEFAULT_SILENCE_K, DEFAULT_MIN_PEERS)[i].status == Silent
    ensures var intervals := Intervals(hs, f);
      exists x :: x in intervals && x < f[i].silenceS
                  && AtMost(intervals, x) as real >= Share(DEFAULT_FLOOR_QUANTILE, |intervals|)
  {
    hide *;
    var intervals := Intervals(hs, f);
    var floor := FloorOf(hs, f);
    SilentIsAboveFloor(f, i, floor, DEFAULT_SILENCE_K, DEFAULT_MIN_PEERS);
    ShareBelow(intervals, DEFAULT_FLOOR_QUANTILE, MIN_INTERVALS_FOR_QUANTILE, f[i].silenceS);
  }

  lemma FloorOf(hs: Histories, f: Fleet) returns (floor: real)
    requires Floor(hs, f).Some?
    ensures floor == Floor(hs, f).value && 0.0 < DEFAULT_FLOOR_QUANTILE <= 1.0 && DEFAULT_MIN_PEERS > 0
    ensures SilenceFloor(Intervals(hs, f), DEFAULT_FLOOR_QUANTILE, MIN_INTERVALS_FOR_QUANTILE) == Some(floor)
  {
    hide SilenceFloor, Intervals;
    floor := Floor(hs, f).value;
  }

  /** What exceeds the floor exceeds at least the quantile's share of the silences it was taken from. */
  lemma ShareBelow(intervals: seq<real>, quantile: real, minObservations: int, silenceS: real)
    requires 0.0 < quantile <= 1.0 && forall x :: x in intervals ==> x > 0.0
    requires SilenceFloor(intervals, quantile, minObservations).Some?
    requires SilenceFloor(intervals, quantile, minObservations).value < silenceS
    ensures exists x :: x in intervals && x < silenceS && AtMost(intervals, x) as real >= Share(quantile, |intervals|)
  {
    AllPositive(intervals);
    hide Positive, SilenceFloor, AtMost, Share;
    FloorIsNearestRank(intervals, quantile, minObservations);
    var floor := SilenceFloor(intervals, quantile, minObservations).value;
    assert floor in intervals && AtMost(intervals, floor) as real >= Share(quantile, |intervals|);
  }

  lemma {:induction false} AllPositive(s: seq<real>)
    requires forall x :: x in s ==> x > 0.0
    ensures Positive(s) == s
  {
    if s != [] {
      assert s[0] in s && forall x :: x in s[1..] ==> x in s;
      AllPositive(s[1..]);
    }
  }

  // ---------- Which readings are kept, by their positions

  /** A word of the device was heard after reading `i`, which had some quiet in it. */
  ghost predicate EndsStretch(h: seq<real>, i: int) {
    0 <= i && i + 1 < |h| && h[i + 1] < h[i] && h[i] > 0.0
  }

  /** The positions where a stretch ended, oldest first: all of them, each once. */
  ghost predicate AreStretchEnds(ps: seq<int>, h: seq<real>) {
    && (forall i, j :: 0 <= i < j < |ps| ==> ps[i] < ps[j])
    && (forall p :: p in ps <==> EndsStretch(h, p))
  }

  lemma {:induction false} StretchEnds(h: seq<real>) returns (ps: seq<int>)
    ensures AreStretchEnds(ps, h)
    ensures |ps| == |EndedSilences(h)|
    ensures forall i :: 0 <= i < |ps| ==> 0 <= ps[i] < |h| && EndedSilences(h)[i] == h[ps[i]]
  {
    if |h| < 2 {
      ps := [];
    } else {
      var before := h[..|h| - 1];
      ps := StretchEnds(before);
      forall p ensures EndsStretch(h, p) <==> EndsStretch(before, p) || (p == |h| - 2 && EndsStretch(h, p)) {
      }
      forall i | 0 <= i < |ps| ensures ps[i] < |h| - 2 && EndsStretch(before, ps[i]) {
        assert ps[i] in ps;
      }
      if Ended(h, |h| - 2) { ps := ps + [|h| - 2]; }
    }
  }

  /**
   What a device's watch has kept are the most recent fifty of the readings at which a stretch of
   quiet ended, oldest first: no older one, and none left out.
   */
  lemma KeptAreMostRecent(w: DeviceWatch, h: seq<real>) returns (ps: seq<int>)
    requires Matches(w, h)
    ensures AreStretchEnds(ps, h)
    ensures |w.ended| == if |ps| <= 50 then |ps| else 50
    ensures forall i :: 0 <= i < |w.ended| ==>
      0 <= ps[|ps| - |w.ended| + i] < |h| && w.ended[i] == h[ps[|ps| - |w.ended| + i]]
  {
    ps := StretchEnds(h);
    hide EndedSilences;
    forall i | 0 <= i < |ps| ensures EndsStretch(h, ps[i]) {
      assert ps[i] in ps;
    }
  }

  // ---------- Which devices are heard

  /** Exactly the drivers that answered are judged, each with its own silence. */
  lemma {:induction false} AnsweringExactly(drivers: seq<Driver>, r: Reading)
    ensures r in Answering(drivers) <==> Driver(r.name, Some(r.silenceS)) in drivers
  {
    if drivers != [] {
      var d := drivers[|drivers| - 1];
      AnsweringExactly(drivers[..|drivers| - 1], r);
      assert drivers == drivers[..|drivers| - 1] + [d];
    }
  }

  /** A tick adds to the history of an answering device its own reading, once. */
  lemma {:induction false} ExtendedGains(hs: Histories, f: Fleet, i: nat)
    requires DistinctNames(f) && i < |f|
    ensures HistoryOf(Extended(hs, f), f[i].name) == HistoryOf(hs, f[i].name) + [f[i].silenceS]
  {
    var n := |f| - 1;
    var before := f[..n];
    assert forall j :: 0 <= j < n ==> before[j] == f[j];
    if i < n {
      ExtendedGains(hs, before, i);
      assert f[i].name != f[n].name;
    } else {
      ExtendedKeeps(hs, before, f[n].name);
    }
  }

  /** What the floor hears of one device. */
  function Kept(hs: Histories, key: string): seq<real> {
    LastOf(EndedSilences(HistoryOf(hs, key)), INTERVAL_HISTORY)
  }

  /** The floor hears every answering device, and nothing else. */
  lemma {:induction false} IntervalsAreEverybodys(hs: Histories, f: Fleet, x: real)
    ensures x in Intervals(hs, f) <==> exists i :: 0 <= i < |f| && x in Kept(hs, f[i].name)
  {
    if f != [] {
      var n := |f| - 1;
      var before := f[..n];
      IntervalsAreEverybodys(hs, before, x);
      assert Intervals(hs, f) == Intervals(hs, before) + Kept(hs, f[n].name);
      hide Intervals, Kept;
      assert forall j :: 0 <= j < n ==> before[j] == f[j];
      if i :| 0 <= i < n && x in Kept(hs, before[i].name) { assert x in Kept(hs, f[i].name); }
      if i :| 0 <= i < |f| && x in Kept(hs, f[i].name) && i < n { assert x in Kept(hs, before[i].name); }
    }
  }

  /** One more device adds all it has kept, once, behind the others. */
  lemma IntervalsOfMore(hs: Histories, f: Fleet, r: Reading)
    ensures Intervals(hs, f + [r]) == Intervals(hs, f) + Kept(hs, r.name)
  {
    assert (f + [r])[..|f|] == f;
  }
}
