/**
 Does a soil probe's reading still stand? The age of the device's last word is held against the
 longest stretch its words have ended in the last seven days, with a 24-hour backstop.

 The class is driven by an arbitrary run of readings, device reports and checks; as long as no
 evidence is lost, `IsFresh` answers the question asked of the whole history of reports, and only
 evidence carried over a restart ever can be lost.
 */
module ProbeFreshness {
  import opened Wrappers
  import opened Watermark

  const PROBE_STALE_BACKSTOP_S := 86400.0
  const PROBE_CADENCE_MEMORY_S := 604800.0

  ghost predicate StrictlyIncreasing(w: seq<real>) {
    forall i, j :: 0 <= i < j < |w| ==> w[i] < w[j]
  }

  /** The stretches of quiet between consecutive words, each at the time it ended. */
  ghost function Gaps(words: seq<real>): (g: seq<Sample>)
    ensures |g| == if words == [] then 0 else |words| - 1
    ensures forall i :: 0 <= i < |g| ==> g[i] == Sample(words[i + 1], words[i + 1] - words[i])
  {
    seq(if words == [] then 0 else |words| - 1,
        i requires 0 <= i < |words| - 1 => Sample(words[i + 1], words[i + 1] - words[i]))
  }

  /** Some stretch that ended within the last seven days lasted at least `ageS`. */
  ghost predicate LastedAsLong(evidence: seq<Sample>, now: real, ageS: real) {
    exists e :: e in evidence && InWindow(e, now, PROBE_CADENCE_MEMORY_S) && e.quietS >= ageS
  }

  ghost predicate NoEvidence(evidence: seq<Sample>, now: real) {
    forall e :: e in evidence ==> !InWindow(e, now, PROBE_CADENCE_MEMORY_S)
  }

  /** The freshness rule on the whole history. */
  ghost predicate Fresh(lastSeen: Option<real>, words: seq<real>, evidence: seq<Sample>, now: real) {
    && lastSeen.Some?
    && var ageS := now - (if words == [] then lastSeen.value else words[|words| - 1]);
    && ageS <= PROBE_STALE_BACKSTOP_S
    && (NoEvidence(evidence, now) || LastedAsLong(evidence, now, ageS))
  }

  class Probe {
    var lastSeen: Option<real>
    var deviceSeen: Option<real>
    const quiet: QuietWatermark
    /** Every distinct word of the device noticed so far, and what a restart carried over. */
    ghost var words: seq<real>
    ghost var carried: seq<Sample>

    ghost predicate Valid()
      reads this, quiet
    {
      && quiet.windowS == PROBE_CADENCE_MEMORY_S
      && quiet.log == carried + Gaps(words)
      && StrictlyIncreasing(words)
      && deviceSeen == (if words == [] then None else Some(words[|words| - 1]))
    }

    /** The word would end a stretch that takes carried evidence with it. */
    ghost predicate WouldLose(spokeAt: Option<real>)
      reads this, quiet
    {
      spokeAt.Some? && LosesCarried(quiet.samples, carried, quiet.horizon, words, spokeAt.value)
    }

    constructor ()
      ensures Valid() && fresh(quiet) && quiet.Valid() && quiet.horizon == None
      ensures lastSeen == None && words == [] && carried == []
    {
      quiet := new QuietWatermark(PROBE_CADENCE_MEMORY_S);
      lastSeen, deviceSeen := None, None;
      words, carried := [], [];
    }

    /** A reading arrived: the probe was heard at `seen`. */
    method OnReading(seen: real)
      requires Valid()
      modifies this`lastSeen
      ensures Valid() && lastSeen == Some(seen)
    {
      lastSeen := Some(seen);
    }

    /** Back from a restart: the reading's time and the bar's evidence, both or neither. */
    method Rehydrate(seen: real, stored: Stored)
      requires Valid() && words == []
      modifies this`lastSeen, this`carried, quiet
      ensures Valid() && lastSeen == Some(seen)
      ensures old(quiet.Valid()) ==> quiet.Valid()
      ensures quiet.horizon == old(quiet.horizon)
      ensures carried == if Parsed(stored).Some? && Decreasing(Parsed(stored).value) then Parsed(stored).value
                         else old(carried)
    {
      lastSeen := Some(seen);
      quiet.Restore(stored);
      carried := quiet.log;
      assert Gaps(words) == [];
    }

    /**
     Take notice of the device's latest word. Of all evidence only what a restart carried over can
     be lost to the stretch it ends, and only if it is dated after the word.
     */
    method ObserveDevice(spokeAt: Option<real>)
      requires Valid()
      modifies this`deviceSeen, this`words, quiet
      ensures Valid()
      ensures words == if spokeAt.Some? && (old(words) == [] || spokeAt.value > old(words)[|old(words)| - 1])
                       then old(words) + [spokeAt.value] else old(words)
      ensures quiet.horizon == old(quiet.horizon)
           || (spokeAt.Some? && quiet.horizon == Later(old(quiet.horizon), spokeAt.value))
      ensures old(quiet.Valid() && !WouldLose(spokeAt)) ==> quiet.Valid()
    {
      if spokeAt.None? {
        return;
      }
      hide Sound, Gaps, StrictlyIncreasing, LosesCarried;
      var seen := spokeAt.value;
      GapsExtend(carried, words, seen);
      WordsExtend(words, seen);
      if deviceSeen.None? {
        deviceSeen, words := Some(seen), words + [seen];
      } else if seen > deviceSeen.value {
        EndQuiet(seen);
        deviceSeen, words := Some(seen), words + [seen];
      }
    }

    /** The device spoke again: the silence since its previous word is over, and becomes evidence. */
    method EndQuiet(seen: real)
      requires Valid() && deviceSeen.Some? && seen > deviceSeen.value
      modifies quiet
      ensures quiet.horizon == Later(old(quiet.horizon), seen)
      ensures quiet.log == old(quiet.log) + [Sample(seen, seen - deviceSeen.value)]
      ensures old(quiet.Valid()) ==> (quiet.Valid() <==> !old(WouldLose(Some(seen))))
    {
      hide Sound, Recorded, Gaps, Harmless, LosesCarried, StrictlyIncreasing;
      OnlyCarriedIsLost(quiet.samples, carried, quiet.horizon, words, seen);
      quiet.Record(seen, seen - deviceSeen.value);
    }

    /**
     The check. As long as the bar has lost no evidence and no word or earlier check lies ahead of
     the clock, it answers the freshness rule asked of the whole history.
     */
    method IsFresh(now: real, spokeAt: Option<real>) returns (r: bool)
      requires Valid()
      modifies this`deviceSeen, this`words, quiet
      ensures Valid()
      ensures words == if lastSeen.Some? && spokeAt.Some?
                         && (old(words) == [] || spokeAt.value > old(words)[|old(words)| - 1])
                       then old(words) + [spokeAt.value] else old(words)
      ensures old(quiet.Valid() && !WouldLose(spokeAt)) ==> quiet.Valid()
      ensures NotAhead(old(quiet.horizon), now) && NotAhead(spokeAt, now) ==> NotAhead(quiet.horizon, now)
      ensures quiet.Valid() && NotAhead(old(quiet.horizon), now) && NotAhead(spokeAt, now)
           ==> (r <==> Fresh(lastSeen, words, carried + Gaps(words), now))
    {
      hide Gaps, Sound, DropExpired, Front, WindowMax, LastedAsLong, NoEvidence, StrictlyIncreasing, LosesCarried;
      if lastSeen.None? {
        return false;
      }
      ObserveDevice(spokeAt);
      var heardAt := if deviceSeen.Some? then deviceSeen.value else lastSeen.value;
      var ageS := now - heardAt;
      if ageS > PROBE_STALE_BACKSTOP_S {
        return false;
      }
      BarDecides(quiet.log, now, ageS);
      var floorS := quiet.Value(now);
      r := floorS.None? || ageS <= floorS.value;
    }
  }

  predicate NotAhead(atS: Option<real>, now: real) {
    atS.Some? ==> atS.value <= now
  }

  /**
   The word ends a stretch of quiet that takes carried evidence with it: evidence dated after the
   word, no longer than the stretch, still within the window and represented by nothing that stays.
   */
  ghost predicate LosesCarried(samples: seq<Sample>, carried: seq<Sample>, horizon: Option<real>, words: seq<real>,
                               seen: real)
  {
    words != [] && seen > words[|words| - 1] &&
    var s := Sample(seen, seen - words[|words| - 1]);
    !Spares(samples[..Kept(samples, s.quietS)], carried, Later(horizon, seen), s, PROBE_CADENCE_MEMORY_S)
  }

  /** The device's own words are always in order: nothing they have shown is ever lost. */
  lemma OnlyCarriedIsLost(samples: seq<Sample>, carried: seq<Sample>, horizon: Option<real>, words: seq<real>,
                          seen: real)
    requires StrictlyIncreasing(words) && words != [] && seen > words[|words| - 1]
    ensures LosesCarried(samples, carried, horizon, words, seen)
      <==> !Harmless(samples, carried + Gaps(words), horizon, Sample(seen, seen - words[|words| - 1]),
                     PROBE_CADENCE_MEMORY_S)
  {
    hide Dominated, Expired;
    var gaps := Gaps(words);
    forall e | e in gaps ensures e.atS <= seen {
      var i :| 0 <= i < |gaps| && gaps[i] == e;
    }
    assert forall e :: e in carried + gaps <==> e in carried || e in gaps;
  }

  /** So nothing is lost while the carried evidence lies before the words. */
  lemma EarlierEvidenceIsKept(samples: seq<Sample>, carried: seq<Sample>, horizon: Option<real>, words: seq<real>,
                              seen: real)
    requires forall e :: e in carried ==> e.atS <= seen
    ensures !LosesCarried(samples, carried, horizon, words, seen)
  {
  }

  // ---------- Whole runs of checks

  /** A check, and what precedes it: a reading, if one arrived, and the device's latest word. */
  datatype Check = Check(reading: Option<real>, spokeAt: Option<real>, now: real)

  /** When the probe was last heard, after some checks. */
  function SeenAfter(seen: Option<real>, checks: seq<Check>): Option<real> {
    if checks == [] then seen
    else if checks[|checks| - 1].reading.Some? then checks[|checks| - 1].reading
    else SeenAfter(seen, checks[..|checks| - 1])
  }

  /** What a check makes of the words so far: a later one joins them, once the probe has been heard. */
  function Noted(words: seq<real>, seen: Option<real>, spokeAt: Option<real>): seq<real> {
    if seen.Some? && spokeAt.Some? && (words == [] || spokeAt.value > words[|words| - 1]) then words + [spokeAt.value]
    else words
  }

  function WordsAfter(words: seq<real>, seen: Option<real>, checks: seq<Check>): seq<real> {
    if checks == [] then words
    else
      Noted(WordsAfter(words, seen, checks[..|checks| - 1]), SeenAfter(seen, checks), checks[|checks| - 1].spokeAt)
  }

  /** What the last of some checks should answer. */
  ghost predicate FreshAfter(words: seq<real>, seen: Option<real>, carried: seq<Sample>, checks: seq<Check>)
    requires checks != []
  {
    var noted := WordsAfter(words, seen, checks);
    Fresh(SeenAfter(seen, checks), noted, carried + Gaps(noted), checks[|checks| - 1].now)
  }

  /** The clock does not run backwards, and no word lies ahead of it. */
  ghost predicate OnTime(horizon: Option<real>, checks: seq<Check>) {
    && (forall i :: 0 <= i < |checks| ==>
          NotAhead(horizon, checks[i].now) && NotAhead(checks[i].spokeAt, checks[i].now))
    && (forall i, j :: 0 <= i < j < |checks| ==> checks[i].now <= checks[j].now)
  }

  /** No word is older than the evidence a restart carried over. */
  ghost predicate AfterCarried(carried: seq<Sample>, checks: seq<Check>) {
    forall i, e :: 0 <= i < |checks| && checks[i].spokeAt.Some? && e in carried ==> e.atS <= checks[i].spokeAt.value
  }

  /** A reading, if one arrived, then the check. */
  method Answer(probe: Probe, check: Check) returns (answer: bool)
    requires probe.Valid() && probe.quiet.Valid()
    requires NotAhead(probe.quiet.horizon, check.now) && NotAhead(check.spokeAt, check.now)
    requires check.spokeAt.Some? ==> forall e :: e in probe.carried ==> e.atS <= check.spokeAt.value
    modifies probe`lastSeen, probe`deviceSeen, probe`words, probe.quiet
    ensures probe.Valid() && probe.quiet.Valid() && NotAhead(probe.quiet.horizon, check.now)
    ensures probe.lastSeen == if check.reading.Some? then check.reading else old(probe.lastSeen)
    ensures probe.words == Noted(old(probe.words), probe.lastSeen, check.spokeAt)
    ensures answer <==> Fresh(probe.lastSeen, probe.words, probe.carried + Gaps(probe.words), check.now)
  {
    hide Fresh, Gaps, Sound, LosesCarried, StrictlyIncreasing;
    if check.reading.Some? {
      probe.OnReading(check.reading.value);
    }
    if check.spokeAt.Some? {
      EarlierEvidenceIsKept(probe.quiet.samples, probe.carried, probe.quiet.horizon, probe.words, check.spokeAt.value);
    }
    answer := probe.IsFresh(check.now, check.spokeAt);
  }

  /** Every check of a run on time, with no word older than the carried evidence, answers the rule. */
  method AnswerAll(probe: Probe, checks: seq<Check>) returns (answers: seq<bool>)
    requires probe.Valid() && probe.quiet.Valid()
    requires OnTime(probe.quiet.horizon, checks) && AfterCarried(probe.carried, checks)
    modifies probe`lastSeen, probe`deviceSeen, probe`words, probe.quiet
    ensures probe.Valid() && probe.quiet.Valid() && |answers| == |checks|
    ensures forall i :: 0 <= i < |checks| ==>
      (answers[i] <==> FreshAfter(old(probe.words), old(probe.lastSeen), probe.carried, checks[..i + 1]))
  {
    hide Fresh, Gaps, Sound, StrictlyIncreasing, Noted;
    ghost var words, seen := probe.words, probe.lastSeen;
    answers := [];
    for n := 0 to |checks|
      invariant probe.Valid() && probe.quiet.Valid() && |answers| == n
      invariant probe.words == WordsAfter(words, seen, checks[..n]) && probe.lastSeen == SeenAfter(seen, checks[..n])
      invariant forall i :: n <= i < |checks| ==> NotAhead(probe.quiet.horizon, checks[i].now)
      invariant forall i :: 0 <= i < n ==> (answers[i] <==> FreshAfter(words, seen, probe.carried, checks[..i + 1]))
    {
      assert checks[..n + 1][..n] == checks[..n];
      var answer := Answer(probe, checks[n]);
      answers := answers + [answer];
    }
  }

  /** But a clock set back between two runs is enough to lose some. */
  lemma ClockSetBackLosesEvidence()
    ensures var carried := [Sample(100.0, 5.0)];
      LosesCarried(carried, carried, None, [40.0], 50.0)
  {
    var held := Sample(100.0, 5.0);
    assert Kept([held], 10.0) == 0 && [held][..0] == [];
    assert held in [held] && !Dominated(held, []);
    assert !Expired(held, Some(50.0), PROBE_CADENCE_MEMORY_S);
  }

  lemma BarDecides(evidence: seq<Sample>, now: real, ageS: real)
    ensures var bar := WindowMax(evidence, now, PROBE_CADENCE_MEMORY_S);
      (bar.None? || ageS <= bar.value) <==> (NoEvidence(evidence, now) || LastedAsLong(evidence, now, ageS))
  {
    WindowMaxIsMaximum(evidence, now, PROBE_CADENCE_MEMORY_S);
  }

  lemma WordsExtend(words: seq<real>, seen: real)
    requires StrictlyIncreasing(words)
    ensures words == [] || seen > words[|words| - 1] ==> StrictlyIncreasing(words + [seen])
  {
  }

  lemma GapsExtend(carried: seq<Sample>, words: seq<real>, seen: real)
    ensures carried + Gaps(words + [seen])
         == if words == [] then carried + Gaps(words)
            else carried + Gaps(words) + [Sample(seen, seen - words[|words| - 1])]
  {
    if words != [] {
      var newest := Sample(seen, seen - words[|words| - 1]);
      assert Gaps(words + [seen]) == Gaps(words) + [newest];
      assert carried + (Gaps(words) + [newest]) == carried + Gaps(words) + [newest];
    }
  }

  /** Every gap of the full history is covered by one that ended no earlier in the thinned one. */
  lemma MergedGap(words: seq<real>, i: nat, n: nat) returns (m: nat)
    requires StrictlyIncreasing(words) && 0 < i < |words| - 1
    requires n < |words| - 1
    ensures m < |words| - 2
    ensures var thinned := words[..i] + words[i + 1..];
      thinned[m + 1] >= words[n + 1] && thinned[m + 1] - thinned[m] >= words[n + 1] - words[n]
  {
    m := if n < i then n else n - 1;
    assert words[i - 1] < words[i] < words[i + 1];
  }

  /**
   Missing one of the device's words merges two stretches into one, and that never lowers the
   bar: whatever the full history shows has been outlasted, the thinned history shows too.
   */
  lemma MissedWordNeverLowersTheBar(words: seq<real>, i: nat, now: real, ageS: real)
    requires StrictlyIncreasing(words) && 0 < i < |words| - 1
    requires LastedAsLong(Gaps(words), now, ageS)
    ensures LastedAsLong(Gaps(words[..i] + words[i + 1..]), now, ageS)
  {
    var gaps, thinned := Gaps(words), Gaps(words[..i] + words[i + 1..]);
    var e :| e in gaps && InWindow(e, now, PROBE_CADENCE_MEMORY_S) && e.quietS >= ageS;
    var n :| 0 <= n < |gaps| && gaps[n] == e;
    var m := MergedGap(words, i, n);
    assert thinned[m] in thinned;
  }

  // ---------- The rule, case by case

  /**
   Never heard, never fresh; heard with no evidence, fresh for a day and no longer; with one stretch
   as evidence, fresh for as long as that lasted, but never beyond the day.
   */
  lemma RuleByCases(heardAt: real, now: real, endedAt: real, quietS: real)
    requires 0.0 <= now - endedAt <= 604800.0
    ensures !Fresh(None, [], [], now)
    ensures Fresh(Some(heardAt), [], [], now) <==> now - heardAt <= 86400.0
    ensures Fresh(Some(heardAt), [], [Sample(endedAt, quietS)], now)
      <==> now - heardAt <= 86400.0 && now - heardAt <= quietS
  {
    assert Sample(endedAt, quietS) in [Sample(endedAt, quietS)];
  }

  /** Evidence counts for seven days, and the device's last word stands before the reading's time. */
  lemma RuleForgets(heardAt: real, spokeAt: real, now: real, endedAt: real, quietS: real)
    requires now - endedAt > 604800.0
    ensures Fresh(Some(heardAt), [spokeAt], [Sample(endedAt, quietS)], now) <==> now - spokeAt <= 86400.0
  {
  }
}
