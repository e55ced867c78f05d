/**
 A bar on quiet: the maximum over the recorded stretches of the last so many seconds, held as a
 monotone deque instead of a list of everything ever recorded.

 `WindowMax` is the plain maximum. Any run of reports, questions and restarts in time order is
 answered with it (`AnswersOnEveryRun`), and out of order exactly the harmless reports keep that so
 (`LateReportLosesEvidence`).
 */
module Watermark {
  import opened Wrappers

  /** Quiet of length `quietS` that was broken at `atS`. */
  datatype Sample = Sample(atS: real, quietS: real)

  // ---------- The simple form

  predicate InWindow(s: Sample, atS: real, windowS: real) {
    atS - s.atS <= windowS
  }

  /** The longest quiet of the recorded stretches that ended within the window before `atS`. */
  ghost function WindowMax(log: seq<Sample>, atS: real, windowS: real): (r: Option<real>)
  {
    if log == [] then None
    else
      var rest := WindowMax(log[1..], atS, windowS);
      if !InWindow(log[0], atS, windowS) then rest
      else if rest.Some? && rest.value >= log[0].quietS then rest
      else Some(log[0].quietS)
  }

  /** It is the maximum: None without candidates, otherwise a candidate none of them exceeds. */
  lemma {:induction false} WindowMaxIsMaximum(log: seq<Sample>, atS: real, windowS: real)
    ensures forall s :: s in log && InWindow(s, atS, windowS) ==>
      WindowMax(log, atS, windowS).Some? && s.quietS <= WindowMax(log, atS, windowS).value
    ensures WindowMax(log, atS, windowS).Some?
      ==> exists s :: s in log && InWindow(s, atS, windowS) && s.quietS == WindowMax(log, atS, windowS).value
  {
    if log != [] {
      WindowMaxIsMaximum(log[1..], atS, windowS);
      var rest := WindowMax(log[1..], atS, windowS);
      if WindowMax(log, atS, windowS) == rest && rest.Some? {
        var s :| s in log[1..] && InWindow(s, atS, windowS) && s.quietS == rest.value;
        assert s in log;
      } else if InWindow(log[0], atS, windowS) {
        assert log[0] in log;
      }
    }
  }

  // ---------- The deque

  /** Strictly decreasing in quiet: what the front needs to be the maximum. */
  predicate Decreasing(samples: seq<Sample>) {
    forall i, j :: 0 <= i < j < |samples| ==> samples[i].quietS > samples[j].quietS
  }

  ghost predicate TimeOrdered(samples: seq<Sample>) {
    forall i, j :: 0 <= i < j < |samples| ==> samples[i].atS <= samples[j].atS
  }

  /** Evidence recorded in time order is kept in time order. */
  ghost predicate KeepsTimeOrder(samples: seq<Sample>, log: seq<Sample>) {
    TimeOrdered(log) ==> TimeOrdered(samples)
  }

  /** A stretch still represented in the deque, by itself or by a later and larger one. */
  ghost predicate Dominated(e: Sample, samples: seq<Sample>) {
    exists i :: 0 <= i < |samples| && samples[i].quietS >= e.quietS && samples[i].atS >= e.atS
  }

  /** A stretch that no question at or after `horizon` can reach back to. */
  ghost predicate Expired(e: Sample, horizon: Option<real>, windowS: real) {
    horizon.Some? && !InWindow(e, horizon.value, windowS)
  }

  /** The deque loses nothing that can still matter, and invents nothing. */
  ghost predicate Represents(samples: seq<Sample>, log: seq<Sample>, horizon: Option<real>, windowS: real) {
    && Decreasing(samples)
    && (forall s :: s in samples ==> s in log)
    && (forall e :: e in log ==> Dominated(e, samples) || Expired(e, horizon, windowS))
  }

  function Later(horizon: Option<real>, atS: real): Option<real> {
    if horizon.Some? && horizon.value >= atS then horizon else Some(atS)
  }

  /** Looking at a later time only lets more stretches expire. */
  lemma LaterRepresents(samples: seq<Sample>, log: seq<Sample>, horizon: Option<real>, atS: real, windowS: real)
    requires Represents(samples, log, horizon, windowS)
    ensures Represents(samples, log, Later(horizon, atS), windowS)
  {
    forall e | e in log ensures Dominated(e, samples) || Expired(e, Later(horizon, atS), windowS) {
    }
  }

  /** Whatever only an expired front stood for has expired with it. */
  lemma PoppedFront(samples: seq<Sample>, log: seq<Sample>, horizon: Option<real>, windowS: real)
    requires Represents(samples, log, horizon, windowS)
    requires samples != [] && Expired(samples[0], horizon, windowS)
    ensures Represents(samples[1..], log, horizon, windowS)
  {
    forall e | e in log && Dominated(e, samples) && !Expired(e, horizon, windowS)
      ensures Dominated(e, samples[1..])
    {
      var i :| 0 <= i < |samples| && samples[i].quietS >= e.quietS && samples[i].atS >= e.atS;
      assert i > 0 && samples[1..][i - 1] == samples[i];
    }
  }

  /** The newest stretch stands for every shorter one before it. */
  lemma Pushed(samples: seq<Sample>, kept: nat, log: seq<Sample>, newest: Sample, horizon: Option<real>, windowS: real)
    requires Represents(samples, log, horizon, windowS)
    requires kept <= |samples|
    requires forall i :: kept <= i < |samples| ==> samples[i].quietS <= newest.quietS
    requires kept == 0 || samples[kept - 1].quietS > newest.quietS
    requires Spares(samples[..kept], log, horizon, newest, windowS)
    ensures Represents(samples[..kept] + [newest], log + [newest], horizon, windowS)
  {
    hide Dominated, Expired;
    var after := samples[..kept] + [newest];
    assert forall i :: 0 <= i < kept ==> samples[i].quietS >= samples[kept - 1].quietS;
    forall e | e in log + [newest] && !Expired(e, horizon, windowS)
      ensures Dominated(e, after)
    {
      if e in log {
        if e.quietS <= newest.quietS && e.atS <= newest.atS {
          DominatedBy(e, after, kept);
        } else if e.quietS <= newest.quietS {
          DominatedByMore(e, samples[..kept], newest);
        } else {
          StillDominated(samples, kept, e, newest);
        }
      } else {
        DominatesItself(after, kept);
      }
    }
  }

  lemma DominatesItself(samples: seq<Sample>, i: nat)
    requires i < |samples|
    ensures Dominated(samples[i], samples)
  {
  }

  lemma DominatedByMore(e: Sample, samples: seq<Sample>, newest: Sample)
    requires Dominated(e, samples)
    ensures Dominated(e, samples + [newest])
  {
    var i :| 0 <= i < |samples| && samples[i].quietS >= e.quietS && samples[i].atS >= e.atS;
    assert (samples + [newest])[i] == samples[i];
  }

  lemma DominatedBy(e: Sample, samples: seq<Sample>, i: nat)
    requires i < |samples| && samples[i].quietS >= e.quietS && samples[i].atS >= e.atS
    ensures Dominated(e, samples)
  {
  }

  lemma StillDominated(samples: seq<Sample>, kept: nat, e: Sample, newest: Sample)
    requires kept <= |samples| && Dominated(e, samples) && e.quietS > newest.quietS
    requires forall i :: kept <= i < |samples| ==> samples[i].quietS <= newest.quietS
    ensures Dominated(e, samples[..kept] + [newest])
  {
    var i :| 0 <= i < |samples| && samples[i].quietS >= e.quietS && samples[i].atS >= e.atS;
    assert (samples[..kept] + [newest])[i] == samples[i];
  }

  lemma PushedInTime(samples: seq<Sample>, kept: nat, log: seq<Sample>, newest: Sample, horizon: Option<real>,
                     windowS: real)
    requires Sound(samples, log, horizon, windowS) && kept <= |samples|
    ensures KeepsTimeOrder(samples[..kept] + [newest], log + [newest])
  {
    hide Dominated, Expired;
    if TimeOrdered(log + [newest]) {
      var longer := log + [newest];
      assert forall i :: 0 <= i < |log| ==> longer[i] == log[i];
      forall i | 0 <= i < |samples| ensures samples[i].atS <= newest.atS {
        assert samples[i] in samples;
        var j :| 0 <= j < |log| && log[j] == samples[i];
        assert longer[j].atS <= longer[|log|].atS;
      }
      assert TimeOrdered(samples);
    }
  }

  /** The deque without what has left the window at its front. */
  function DropExpired(samples: seq<Sample>, atS: real, windowS: real): (r: seq<Sample>)
    ensures r == [] || InWindow(r[0], atS, windowS)
    decreases |samples|
  {
    if samples != [] && !InWindow(samples[0], atS, windowS) then DropExpired(samples[1..], atS, windowS) else samples
  }

  /** How much of the deque outlasts a new stretch. */
  function Kept(samples: seq<Sample>, quietS: real): (n: nat)
    ensures n <= |samples|
    ensures n == 0 || samples[n - 1].quietS > quietS
    ensures forall i :: n <= i < |samples| ==> samples[i].quietS <= quietS
  {
    if samples != [] && samples[|samples| - 1].quietS <= quietS then Kept(samples[..|samples| - 1], quietS)
    else |samples|
  }

  /** The deque after one more stretch. */
  function Recorded(samples: seq<Sample>, atS: real, quietS: real, windowS: real): seq<Sample> {
    DropExpired(samples[..Kept(samples, quietS)] + [Sample(atS, quietS)], atS, windowS)
  }

  function Front(samples: seq<Sample>): Option<real> {
    if samples == [] then None else Some(samples[0].quietS)
  }

  /**
   What a new stretch must not take with it: a stretch no longer than it that ended after it, can
   still be asked about, and is not represented by what is kept.
   */
  ghost predicate Spares(kept: seq<Sample>, log: seq<Sample>, horizon: Option<real>, s: Sample, windowS: real) {
    forall e :: e in log && e.quietS <= s.quietS && e.atS > s.atS ==> Dominated(e, kept) || Expired(e, horizon, windowS)
  }

  /** The reports that lose no evidence. */
  ghost predicate Harmless(samples: seq<Sample>, log: seq<Sample>, horizon: Option<real>, s: Sample, windowS: real) {
    Spares(samples[..Kept(samples, s.quietS)], log, Later(horizon, s.atS), s, windowS)
  }

  /** Stretches reported as they end are harmless: none that they outlast ended after them. */
  lemma InOrderIsHarmless(samples: seq<Sample>, log: seq<Sample>, horizon: Option<real>, s: Sample, windowS: real)
    requires forall e :: e in log && e.quietS <= s.quietS ==> e.atS <= s.atS
    ensures Harmless(samples, log, horizon, s, windowS)
  {
  }

  /** The class invariant. */
  ghost predicate Sound(samples: seq<Sample>, log: seq<Sample>, horizon: Option<real>, windowS: real) {
    Represents(samples, log, horizon, windowS) && KeepsTimeOrder(samples, log)
  }

  lemma {:induction false} DroppedStaysSound(samples: seq<Sample>, log: seq<Sample>, horizon: Option<real>,
                                             atS: real, windowS: real)
    requires Sound(samples, log, horizon, windowS) && horizon == Later(horizon, atS)
    ensures Sound(DropExpired(samples, atS, windowS), log, horizon, windowS)
    decreases |samples|
  {
    hide Represents;
    if samples != [] && !InWindow(samples[0], atS, windowS) {
      PoppedFront(samples, log, horizon, windowS);
      DroppedStaysSound(samples[1..], log, horizon, atS, windowS);
    }
  }

  /** Looking at the deque keeps it sound. */
  lemma PrunedStaysSound(samples: seq<Sample>, log: seq<Sample>, horizon: Option<real>, atS: real, windowS: real)
    requires Sound(samples, log, horizon, windowS)
    ensures Sound(DropExpired(samples, atS, windowS), log, Later(horizon, atS), windowS)
  {
    hide Represents, KeepsTimeOrder, DropExpired;
    LaterRepresents(samples, log, horizon, atS, windowS);
    DroppedStaysSound(samples, log, Later(horizon, atS), atS, windowS);
  }

  lemma LaterSound(samples: seq<Sample>, log: seq<Sample>, horizon: Option<real>, atS: real, windowS: real)
    requires Sound(samples, log, horizon, windowS)
    ensures Sound(samples, log, Later(horizon, atS), windowS)
    ensures Later(Later(horizon, atS), atS) == Later(horizon, atS)
  {
    LaterRepresents(samples, log, horizon, atS, windowS);
  }

  /** So does a harmless report. */
  lemma RecordedStaysSound(samples: seq<Sample>, log: seq<Sample>, horizon: Option<real>, s: Sample, windowS: real)
    requires Sound(samples, log, horizon, windowS) && Harmless(samples, log, horizon, s, windowS)
    ensures Sound(Recorded(samples, s.atS, s.quietS, windowS), log + [s], Later(horizon, s.atS), windowS)
  {
    var kept, now := Kept(samples, s.quietS), Later(horizon, s.atS);
    hide Represents, KeepsTimeOrder, DropExpired, Kept, Spares, Later;
    LaterSound(samples, log, horizon, s.atS, windowS);
    Pushed(samples, kept, log, s, now, windowS);
    PushedInTime(samples, kept, log, s, now, windowS);
    PrunedStaysSound(samples[..kept] + [s], log + [s], now, s.atS, windowS);
  }

  lemma {:induction false} DroppedIsPart(samples: seq<Sample>, atS: real, windowS: real)
    ensures forall x :: x in DropExpired(samples, atS, windowS) ==> x in samples
    decreases |samples|
  {
    if samples != [] && !InWindow(samples[0], atS, windowS) { DroppedIsPart(samples[1..], atS, windowS); }
  }

  lemma {:induction false} AllDropped(samples: seq<Sample>, atS: real, windowS: real)
    requires forall x :: x in samples ==> !InWindow(x, atS, windowS)
    ensures DropExpired(samples, atS, windowS) == []
    decreases |samples|
  {
    if samples != [] { AllDropped(samples[1..], atS, windowS); }
  }

  /** The bar answers a question as the whole history would. */
  ghost predicate Answers(samples: seq<Sample>, log: seq<Sample>, atS: real, windowS: real) {
    Front(DropExpired(samples, atS, windowS)) == WindowMax(log, atS, windowS)
  }

  lemma SoundAnswers(samples: seq<Sample>, log: seq<Sample>, horizon: Option<real>, atS: real, windowS: real)
    requires Sound(samples, log, horizon, windowS) && Later(horizon, atS) == Some(atS)
    ensures Answers(samples, log, atS, windowS)
  {
    PrunedStaysSound(samples, log, horizon, atS, windowS);
    FrontIsWindowMax(DropExpired(samples, atS, windowS), log, atS, windowS);
  }

  /** The stretch a harmful report takes with it is still asked about when its window runs out. */
  lemma HarmfulReportLoses(samples: seq<Sample>, log: seq<Sample>, horizon: Option<real>, s: Sample, windowS: real)
    returns (atS: real)
    requires Decreasing(samples) && !Harmless(samples, log, horizon, s, windowS)
    ensures Later(Later(horizon, s.atS), atS) == Some(atS)
    ensures !Answers(Recorded(samples, s.atS, s.quietS, windowS), log + [s], atS, windowS)
  {
    var kept := Kept(samples, s.quietS);
    var after := samples[..kept] + [s];
    var e :| e in log && e.quietS <= s.quietS && e.atS > s.atS
      && !Dominated(e, samples[..kept]) && !Expired(e, Later(horizon, s.atS), windowS);
    atS := e.atS + windowS;
    forall x | x in after ensures !InWindow(x, atS, windowS) {
      if x in samples[..kept] {
        var i :| 0 <= i < kept && samples[i] == x;
        assert samples[..kept][i].quietS >= e.quietS;
      }
    }
    DroppedIsPart(after, s.atS, windowS);
    AllDropped(DropExpired(after, s.atS, windowS), atS, windowS);
    WindowMaxIsMaximum(log + [s], atS, windowS);
    assert e in log + [s] && InWindow(e, atS, windowS);
  }

  lemma SoundAnswersAll(samples: seq<Sample>, log: seq<Sample>, horizon: Option<real>, windowS: real)
    requires Sound(samples, log, horizon, windowS) && horizon.Some?
    ensures forall atS :: atS >= horizon.value ==> Answers(samples, log, atS, windowS)
  {
    hide Sound, Answers;
    forall atS | atS >= horizon.value ensures Answers(samples, log, atS, windowS) {
      SoundAnswers(samples, log, horizon, atS, windowS);
    }
  }

  /**
   Exactly the harmless reports lose no evidence: after one of them the deque is sound and every
   later question is answered as the whole history would, after any other some question is not.
   */
  lemma LateReportLosesEvidence(samples: seq<Sample>, log: seq<Sample>, horizon: Option<real>, s: Sample, windowS: real)
    requires Sound(samples, log, horizon, windowS)
    ensures var after, now := Recorded(samples, s.atS, s.quietS, windowS), Later(horizon, s.atS);
      && (Harmless(samples, log, horizon, s, windowS) <==> Sound(after, log + [s], now, windowS))
      && (Harmless(samples, log, horizon, s, windowS)
          <==> forall atS :: atS >= now.value ==> Answers(after, log + [s], atS, windowS))
  {
    var after, now := Recorded(samples, s.atS, s.quietS, windowS), Later(horizon, s.atS);
    assert Decreasing(samples);
    hide Sound, Recorded, Harmless, Answers, Decreasing;
    if Harmless(samples, log, horizon, s, windowS) {
      RecordedStaysSound(samples, log, horizon, s, windowS);
    } else {
      var atS := HarmfulReportLoses(samples, log, horizon, s, windowS);
      assert atS >= now.value && !Answers(after, log + [s], atS, windowS);
    }
    if Sound(after, log + [s], now, windowS) { SoundAnswersAll(after, log + [s], now, windowS); }
  }

  /** Such a report: longer and earlier than a stretch that is still within the window. */
  lemma LateReport()
    ensures var held, late := Sample(100.0, 5.0), Sample(50.0, 7.0);
      && Front(DropExpired(Recorded([held], late.atS, late.quietS, 10.0), 105.0, 10.0)) == None
      && WindowMax([held, late], 105.0, 10.0) == Some(5.0)
  {
    var held, late := Sample(100.0, 5.0), Sample(50.0, 7.0);
    assert [held][..0] == [] && [] + [late] == [late] && [late][1..] == [];
    assert Kept([held], 7.0) == 0;
    assert WindowMax([late], 105.0, 10.0) == None;
    assert [held, late][1..] == [late];
  }

  /** The front of a deque with no expired front is the maximum over the window. */
  lemma FrontIsWindowMax(samples: seq<Sample>, log: seq<Sample>, atS: real, windowS: real)
    requires Represents(samples, log, Some(atS), windowS)
    requires samples == [] || InWindow(samples[0], atS, windowS)
    ensures WindowMax(log, atS, windowS) == Front(samples)
  {
    WindowMaxIsMaximum(log, atS, windowS);
    if samples != [] {
      assert samples[0] in log;
      var top := WindowMax(log, atS, windowS);
      var e :| e in log && InWindow(e, atS, windowS) && e.quietS == top.value;
      assert Dominated(e, samples);
    }
  }

  // ---------- What restoring accepts

  /** A value read back from storage, which may be anything. */
  datatype Stored = NotAList | Items(items: seq<StoredPair>)
  datatype StoredPair = NotAPair | Pair(first: StoredNumber, second: StoredNumber)
  datatype StoredNumber = NotANumber | Number(value: real)

  predicate WellFormed(p: StoredPair) {
    p.Pair? && p.first.Number? && p.second.Number?
  }

  function ToSample(p: StoredPair): Sample
    requires WellFormed(p)
  {
    Sample(p.first.value, p.second.value)
  }

  function ToStored(samples: seq<Sample>): Stored {
    Items(seq(|samples|, i requires 0 <= i < |samples| => Pair(Number(samples[i].atS), Number(samples[i].quietS))))
  }

  /** The samples a stored value stands for, if every pair is a pair of numbers. */
  function Parsed(stored: Stored): Option<seq<Sample>> {
    if stored.Items? then ParsedItems(stored.items) else None
  }

  function ParsedItems(items: seq<StoredPair>): (r: Option<seq<Sample>>)
    ensures r.Some? ==> |r.value| == |items|
    ensures r.Some? ==> forall i :: 0 <= i < |items| ==> WellFormed(items[i]) && r.value[i] == ToSample(items[i])
    ensures r.None? ==> exists i :: 0 <= i < |items| && !WellFormed(items[i])
  {
    if items == [] then Some([])
    else if !WellFormed(items[0]) then None
    else
      var rest := ParsedItems(items[1..]);
      if rest.None? then None else Some([ToSample(items[0])] + rest.value)
  }

  class QuietWatermark {
    const windowS: real
    var samples: seq<Sample>
    /** Every stretch recorded, or taken back by the last accepted restore, since then. */
    ghost var log: seq<Sample>
    /** The latest time the deque was pruned for. */
    ghost var horizon: Option<real>

    ghost predicate Valid()
      reads this
    {
      Sound(samples, log, horizon, windowS)
    }

    constructor (windowS: real)
      ensures Valid() && this.windowS == windowS
      ensures samples == [] && log == [] && horizon == None
    {
      this.windowS := windowS;
      samples, log, horizon := [], [], None;
    }

    /** Drop from the front what has left the window. */
    method Prune(atS: real)
      modifies this`samples
      ensures samples == DropExpired(old(samples), atS, windowS)
    {
      while samples != [] && atS - samples[0].atS > windowS
        invariant DropExpired(samples, atS, windowS) == DropExpired(old(samples), atS, windowS)
        decreases |samples|
      {
        samples := samples[1..];
      }
    }

    /** Take in one more sample. The bar stays sound exactly when the report is harmless. */
    method Record(atS: real, quietS: real)
      modifies this
      ensures samples == if quietS <= 0.0 then old(samples) else Recorded(old(samples), atS, quietS, windowS)
      ensures log == if quietS <= 0.0 then old(log) else old(log) + [Sample(atS, quietS)]
      ensures horizon == if quietS <= 0.0 then old(horizon) else Later(old(horizon), atS)
      ensures old(Valid()) && quietS <= 0.0 ==> Valid()
      ensures old(Valid()) && quietS > 0.0
        ==> (Valid() <==> Harmless(old(samples), old(log), old(horizon), Sample(atS, quietS), windowS))
    {
      if quietS <= 0.0 {
        return;
      }
      if Valid() {
        LateReportLosesEvidence(samples, log, horizon, Sample(atS, quietS), windowS);
      }
      hide Sound, Harmless;
      PopShorter(quietS);
      samples := samples + [Sample(atS, quietS)];
      log := log + [Sample(atS, quietS)];
      horizon := Later(horizon, atS);
      Prune(atS);
    }

    /** Drop from the back the stretches a longer one has overtaken. */
    method PopShorter(quietS: real)
      modifies this`samples
      ensures samples == old(samples)[..Kept(old(samples), quietS)]
    {
      while samples != [] && samples[|samples| - 1].quietS <= quietS
        invariant |samples| <= |old(samples)| && samples == old(samples)[..|samples|]
        invariant Kept(samples, quietS) == Kept(old(samples), quietS)
        decreases |samples|
      {
        samples := samples[..|samples| - 1];
      }
    }

    /** The bar: for questions asked in time order, the plain maximum over the window. */
    method Value(atS: real) returns (r: Option<real>)
      modifies this`samples, this`horizon
      ensures samples == DropExpired(old(samples), atS, windowS) && r == Front(samples)
      ensures horizon == Later(old(horizon), atS)
      ensures old(Valid()) ==> Valid()
      ensures Valid() && horizon == Some(atS) ==> r == WindowMax(log, atS, windowS)
    {
      if Valid() {
        PrunedStaysSound(samples, log, horizon, atS, windowS);
      }
      horizon := Later(horizon, atS);
      Prune(atS);
      if Valid() && horizon == Some(atS) {
        FrontIsWindowMax(samples, log, atS, windowS);
      }
      r := if samples == [] then None else Some(samples[0].quietS);
    }

    /** The evidence, in the shape that is written to storage. */
    method AsSamples() returns (stored: Stored)
      ensures stored == ToStored(samples)
    {
      stored := ToStored(samples);
    }

    /**
     Adopt stored evidence. Only pairs of numbers, strictly decreasing in quiet, are adopted, and
     then they are the whole evidence; anything else leaves the bar as it was. The order of the
     times is not looked at, and is not needed: see `Represents`.
     */
    method Restore(stored: Stored)
      modifies this`samples, this`log
      ensures old(Valid()) ==> Valid()
      ensures Parsed(stored).Some? && Decreasing(Parsed(stored).value)
        ==> samples == log == Parsed(stored).value
      ensures !(Parsed(stored).Some? && Decreasing(Parsed(stored).value))
        ==> samples == old(samples) && log == old(log)
    {
      if stored.NotAList? {
        return;
      }
      var restored: seq<Sample> := [];
      for n := 0 to |stored.items|
        invariant |restored| == n
        invariant forall i :: 0 <= i < n ==> WellFormed(stored.items[i]) && restored[i] == ToSample(stored.items[i])
      {
        var pair := stored.items[n];
        if !WellFormed(pair) {
          return;
        }
        restored := restored + [ToSample(pair)];
      }
      assert restored == ParsedItems(stored.items).value;
      if exists i :: 0 < i < |restored| && restored[i - 1].quietS <= restored[i].quietS {
        return;
      }
      PairwiseDecreasing(restored);
      DequeRepresentsItself(restored, horizon, windowS);
      samples, log := restored, restored;
    }
  }

  lemma DequeRepresentsItself(samples: seq<Sample>, horizon: Option<real>, windowS: real)
    requires Decreasing(samples)
    ensures Represents(samples, samples, horizon, windowS)
  {
    forall e | e in samples ensures Dominated(e, samples) {
      var i :| 0 <= i < |samples| && samples[i] == e;
    }
  }

  /** Checking neighbours is enough. */
  lemma PairwiseDecreasing(s: seq<Sample>)
    requires forall i :: 0 < i < |s| ==> s[i - 1].quietS > s[i].quietS
    ensures Decreasing(s)
  {
    forall i, j | 0 <= i < j < |s| ensures s[i].quietS > s[j].quietS {
      DecreasingFrom(s, i, j);
    }
  }

  lemma {:induction false} DecreasingFrom(s: seq<Sample>, i: nat, j: nat)
    requires forall i :: 0 < i < |s| ==> s[i - 1].quietS > s[i].quietS
    requires i < j < |s|
    ensures s[i].quietS > s[j].quietS
    decreases j
  {
    if i < j - 1 { DecreasingFrom(s, i, j - 1); }
  }

  /**
   A restart changes no verdict: evidence written out and taken back by a new bar answers
   every later question as the whole history would.
   */
  method Restart(bar: QuietWatermark, atS: real)
    returns (renewed: QuietWatermark, before: Option<real>, after: Option<real>)
    requires bar.Valid()
    requires bar.horizon.Some? ==> bar.horizon.value <= atS
    modifies bar
    ensures renewed.Valid()
    ensures before == after == WindowMax(old(bar.log), atS, bar.windowS)
  {
    renewed := new QuietWatermark(bar.windowS);
    var stored := bar.AsSamples();
    assert ParsedItems(stored.items).value == bar.samples;
    renewed.Restore(stored);
    RestoredAnswers(bar.samples, bar.log, bar.horizon, atS, bar.windowS);
    after := renewed.Value(atS);
    before := bar.Value(atS);
  }

  lemma MaximumCovered(a: seq<Sample>, b: seq<Sample>, atS: real, windowS: real)
    requires forall e :: e in a && InWindow(e, atS, windowS) ==>
      exists s :: s in b && InWindow(s, atS, windowS) && s.quietS >= e.quietS
    ensures WindowMax(a, atS, windowS).Some? ==>
      WindowMax(b, atS, windowS).Some? && WindowMax(a, atS, windowS).value <= WindowMax(b, atS, windowS).value
  {
    WindowMaxIsMaximum(a, atS, windowS);
    WindowMaxIsMaximum(b, atS, windowS);
  }

  lemma RestoredAnswers(samples: seq<Sample>, log: seq<Sample>, horizon: Option<real>, atS: real, windowS: real)
    requires Represents(samples, log, horizon, windowS)
    requires horizon.Some? ==> horizon.value <= atS
    ensures WindowMax(samples, atS, windowS) == WindowMax(log, atS, windowS)
  {
    MaximumCovered(samples, log, atS, windowS);
    forall e | e in log && InWindow(e, atS, windowS)
      ensures exists s :: s in samples && InWindow(s, atS, windowS) && s.quietS >= e.quietS
    {
      assert Dominated(e, samples);
      var i :| 0 <= i < |samples| && samples[i].quietS >= e.quietS && samples[i].atS >= e.atS;
      assert samples[i] in samples;
    }
    MaximumCovered(log, samples, atS, windowS);
  }

  // ---------- Whole runs, restarts included

  /** A call, or a restart: the evidence written out and taken back by a new bar. */
  datatype Op = Report(atS: real, quietS: real) | Ask(atS: real) | Reload(atS: real)

  /** What a new, empty bar holds once it has been given the stored evidence. */
  function Reloaded(samples: seq<Sample>): seq<Sample> {
    var parsed := Parsed(ToStored(samples));
    if parsed.Some? && Decreasing(parsed.value) then parsed.value else []
  }

  function DequeAfter(ops: seq<Op>, windowS: real): seq<Sample> {
    if ops == [] then []
    else
      var before := DequeAfter(ops[..|ops| - 1], windowS);
      match ops[|ops| - 1]
      case Report(atS, quietS) => if quietS <= 0.0 then before else Recorded(before, atS, quietS, windowS)
      case Ask(atS) => DropExpired(before, atS, windowS)
      case Reload(_) => Reloaded(before)
  }

  /** Every positive stretch of quiet reported, whatever has been restarted since. */
  ghost function Reported(ops: seq<Op>): (log: seq<Sample>)
  {
    if ops == [] then []
    else
      var before := Reported(ops[..|ops| - 1]);
      var op := ops[|ops| - 1];
      if op.Report? && op.quietS > 0.0 then before + [Sample(op.atS, op.quietS)] else before
  }

  ghost function HorizonAfter(ops: seq<Op>): Option<real> {
    if ops == [] then None
    else
      var before := HorizonAfter(ops[..|ops| - 1]);
      var op := ops[|ops| - 1];
      if op.Reload? || (op.Report? && op.quietS <= 0.0) then before else Later(before, op.atS)
  }

  /** Time does not run backwards. */
  ghost predicate InTime(ops: seq<Op>) {
    forall i, j :: 0 <= i < j < |ops| ==> ops[i].atS <= ops[j].atS
  }

  lemma ReloadKeepsEverything(samples: seq<Sample>)
    requires Decreasing(samples)
    ensures Reloaded(samples) == samples
  {
    assert ParsedItems(ToStored(samples).items).value == samples;
  }

  /** Nothing a run has reported, or looked back from, lies after its end. */
  lemma {:induction false} RunLooksBack(ops: seq<Op>, atS: real)
    requires forall op :: op in ops ==> op.atS <= atS
    ensures forall e :: e in Reported(ops) ==> e.atS <= atS
    ensures HorizonAfter(ops).Some? ==> HorizonAfter(ops).value <= atS
    ensures InTime(ops) ==> TimeOrdered(Reported(ops))
  {
    if ops != [] {
      var before, op := ops[..|ops| - 1], ops[|ops| - 1];
      assert op in ops && forall o :: o in before ==> o in ops;
      RunLooksBack(before, atS);
      if InTime(ops) {
        RunLooksBackFrom(ops);
        RunLooksBack(before, op.atS);
      }
    }
  }

  lemma RunLooksBackFrom(ops: seq<Op>)
    requires ops != [] && InTime(ops)
    ensures InTime(ops[..|ops| - 1])
    ensures forall o :: o in ops[..|ops| - 1] ==> o.atS <= ops[|ops| - 1].atS
  {
    var before := ops[..|ops| - 1];
    forall o | o in before ensures o.atS <= ops[|ops| - 1].atS {
      var i :| 0 <= i < |before| && before[i] == o;
      assert ops[i] == o;
    }
  }

  lemma {:induction false} RunStaysSound(ops: seq<Op>, windowS: real)
    requires InTime(ops)
    ensures Sound(DequeAfter(ops, windowS), Reported(ops), HorizonAfter(ops), windowS)
  {
    if ops != [] {
      var before, op := ops[..|ops| - 1], ops[|ops| - 1];
      RunLooksBackFrom(ops);
      RunStaysSound(before, windowS);
      RunLooksBack(before, op.atS);
      var samples, log, horizon := DequeAfter(before, windowS), Reported(before), HorizonAfter(before);
      match op
      case Report(atS, quietS) =>
        if quietS > 0.0 {
          InOrderIsHarmless(samples, log, horizon, Sample(atS, quietS), windowS);
          RecordedStaysSound(samples, log, horizon, Sample(atS, quietS), windowS);
        }
      case Ask(atS) => PrunedStaysSound(samples, log, horizon, atS, windowS);
      case Reload(_) => ReloadKeepsEverything(samples);
    }
  }

  /**
   After any run of reports, questions and restarts in time order, a question at or after its end
   is answered with the maximum over everything ever reported, and the deque is strictly
   decreasing in quiet and ordered in time.
   */
  lemma AnswersOnEveryRun(ops: seq<Op>, windowS: real, atS: real)
    requires InTime(ops) && forall op :: op in ops ==> op.atS <= atS
    ensures Answers(DequeAfter(ops, windowS), Reported(ops), atS, windowS)
    ensures Decreasing(DequeAfter(ops, windowS)) && TimeOrdered(DequeAfter(ops, windowS))
  {
    RunStaysSound(ops, windowS);
    RunLooksBack(ops, atS);
    SoundAnswers(DequeAfter(ops, windowS), Reported(ops), HorizonAfter(ops), atS, windowS);
  }

  /** The bar is a length of quiet: nothing without length ever enters it. */
  lemma {:induction false} ReportsHaveLength(ops: seq<Op>)
    ensures forall e :: e in Reported(ops) ==> e.quietS > 0.0
  {
    if ops != [] { ReportsHaveLength(ops[..|ops| - 1]); }
  }

  lemma BarIsPositive(ops: seq<Op>, windowS: real, atS: real)
    requires InTime(ops) && forall op :: op in ops ==> op.atS <= atS
    ensures var bar := Front(DropExpired(DequeAfter(ops, windowS), atS, windowS)); bar.Some? ==> bar.value > 0.0
  {
    hide DropExpired, DequeAfter, Front;
    AnswersOnEveryRun(ops, windowS, atS);
    ReportsHaveLength(ops);
    WindowMaxIsMaximum(Reported(ops), atS, windowS);
  }
}
