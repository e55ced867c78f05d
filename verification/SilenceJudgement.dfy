/**
 Each valve of a fleet is judged against the others by `median + k * MAD` of their silences, and
 never below a floor that ended silences supply.

 The design promises are theorems here, for a fleet of any size: at most half of the fleet is
 ever accused, a quieter valve is never excused where a chattier one is accused, a minority
 of wild peers moves no bar beyond what the majority allows, and equal silences accuse nobody.
 */
module SilenceJudgement {
  import opened Wrappers
  import opened OrderStatistics

  datatype Reachability = Live | Silent | Unknown

  /** A verdict, the silence it is about, and the reference and bar if there were peers enough. */
  datatype SilenceVerdict = SilenceVerdict(
    status: Reachability, silenceS: real, referenceS: Option<real>, thresholdS: Option<real>)

  /** One entry of the fleet's dictionary: a name and its silence in seconds. */
  datatype Reading = Reading(name: string, silenceS: real)

  type Fleet = seq<Reading>

  const DEFAULT_SILENCE_K := 3.0
  const DEFAULT_MIN_PEERS := 2
  const DEFAULT_FLOOR_QUANTILE := 0.95
  const MIN_INTERVALS_FOR_QUANTILE := 20

  /** A dictionary lists every actuator once. */
  ghost predicate DistinctNames(f: Fleet) {
    forall i, j :: 0 <= i < j < |f| ==> f[i].name != f[j].name
  }

  function Max(a: real, b: real): real {
    if a >= b then a else b
  }

  // ---------- One valve against its peers

  /** The bar a reference, a spread and a floor put before a silence. */
  function Bar(reference: real, spread: real, floorS: real, k: real): real {
    Max(reference + k * spread, floorS)
  }

  function Threshold(peers: seq<real>, floorS: real, k: real): real
    requires peers != []
  {
    Bar(Median(peers), Mad(peers), floorS, k)
  }

  /** Without peers, and none required, the median would raise: that call is excluded. */
  function JudgeSilence(silenceS: real, peers: seq<real>, floorS: real, k: real, minPeers: int): SilenceVerdict
    requires peers != [] || minPeers > 0
  {
    if |peers| < minPeers then
      SilenceVerdict(Unknown, silenceS, None, None)
    else
      var threshold := Threshold(peers, floorS, k);
      var status := if silenceS > threshold then Silent else Live;
      SilenceVerdict(status, silenceS, Some(Median(peers)), Some(threshold))
  }

  lemma BarInNumbers(m: real, spread: real, floorS: real, k: real)
    ensures Bar(m, spread, floorS, k) == if m + k * spread >= floorS then m + k * spread else floorS
  {
  }

  /** Half the sum of the two middle entries of the sorted values. */
  ghost predicate IsMiddle(m: real, s: seq<real>) {
    s != [] && m == (Sort(s)[(|s| - 1) / 2] + Sort(s)[|s| / 2]) / 2.0
  }

  lemma ThresholdInNumbers(peers: seq<real>, floorS: real, k: real, m: real, d: seq<real>, spread: real)
    requires IsMiddle(m, peers) && AreDistances(d, peers, m) && IsMiddle(spread, d)
    ensures Median(peers) == m
    ensures Threshold(peers, floorS, k) == if m + k * spread >= floorS then m + k * spread else floorS
  {
    hide Bar, Median, Mad, Sort;
    MedianInNumbers(peers);
    MadInNumbers(peers, d);
    BarInNumbers(m, spread, floorS, k);
  }

  /**
   The verdict in numbers: `m` is the middle of the peers, `spread` the middle of their distances
   from it, and the silence is held against `m` plus `k` times `spread`, or the floor.
   */
  lemma VerdictInNumbers(silenceS: real, peers: seq<real>, floorS: real, k: real, minPeers: int,
                         m: real, d: seq<real>, spread: real)
    requires minPeers <= |peers|
    requires IsMiddle(m, peers) && AreDistances(d, peers, m) && IsMiddle(spread, d)
    ensures var bar := if m + k * spread >= floorS then m + k * spread else floorS;
      JudgeSilence(silenceS, peers, floorS, k, minPeers)
      == SilenceVerdict(if silenceS > bar then Silent else Live, silenceS, Some(m), Some(bar))
  {
    hide Median, Threshold, IsMiddle, AreDistances;
    ThresholdInNumbers(peers, floorS, k, m, d, spread);
    assert peers != [] by { MiddleOfSome(m, peers); }
  }

  lemma MiddleOfSome(m: real, s: seq<real>)
    requires IsMiddle(m, s)
    ensures s != []
  {
  }

  /** With too few peers there is no verdict, and no numbers. */
  lemma TooFewPeers(silenceS: real, peers: seq<real>, floorS: real, k: real, minPeers: int)
    requires |peers| < minPeers
    ensures JudgeSilence(silenceS, peers, floorS, k, minPeers) == SilenceVerdict(Unknown, silenceS, None, None)
  {
  }

  /** The bar grows with the reference and the spread, and moves with the reference. */
  lemma BarMonotone(reference: real, spread: real, reference': real, spread': real, floorS: real, k: real)
    requires k >= 0.0 && reference <= reference' && spread <= spread'
    ensures Bar(reference, spread, floorS, k) <= Bar(reference', spread', floorS, k)
  {
    assert k * (spread' - spread) >= 0.0;
  }

  lemma BarMoves(reference: real, spread: real, floorS: real, k: real, t: real)
    ensures Bar(reference + t, spread, floorS, k) == Bar(reference, spread, floorS - t, k) + t
  {
  }

  lemma BarAbove(reference: real, spread: real, floorS: real, k: real, n: real)
    requires n <= k && n >= 0.0 && spread >= 0.0
    ensures Bar(reference, spread, floorS, k) >= reference + n * spread
  {
    assert (k - n) * spread >= 0.0;
  }

  /**
   A strict minority of peers, whatever they say, can neither hide a dead valve nor accuse a
   lively one: if the majority's silences lie in `[lo, hi]`, everything above the highest bar those
   bounds allow is SILENT, and nothing up to the lowest is.
   */
  lemma WildMinorityDecidesNothing(silenceS: real, peers: seq<real>, floorS: real, k: real, minPeers: int,
                                   lo: real, hi: real)
    requires k >= 0.0 && minPeers <= |peers|
    requires 2 * Within(peers, lo, hi) > |peers|
    ensures silenceS > Bar(hi, hi - lo, floorS, k)
      ==> JudgeSilence(silenceS, peers, floorS, k, minPeers).status == Silent
    ensures silenceS <= Bar(lo, 0.0, floorS, k)
      ==> JudgeSilence(silenceS, peers, floorS, k, minPeers).status == Live
  {
    hide Bar, Median, Mad;
    MedianAndMadBreakdown(peers, lo, hi);
    BarMonotone(Median(peers), Mad(peers), hi, hi - lo, floorS, k);
    BarMonotone(lo, 0.0, Median(peers), Mad(peers), floorS, k);
  }

  /**
   Both bars are the best possible: two peers at the bounds and a wild third reach the highest,
   two at the lower bound and any third the lowest. Between them the minority does decide.
   */
  lemma MajorityBoundsAreSharp(lo: real, hi: real, wild: real, floorS: real, k: real)
    requires lo <= hi && wild >= hi + (hi - lo)
    ensures 2 * Within([lo, hi, wild], lo, hi) > 3
    ensures Threshold([lo, hi, wild], floorS, k) == Bar(hi, hi - lo, floorS, k)
    ensures 2 * Within([lo, lo, wild], lo, hi) > 3
    ensures Threshold([lo, lo, wild], floorS, k) == Bar(lo, 0.0, floorS, k)
  {
    WithinOfThree(lo, hi, wild, lo, hi);
    WithinOfThree(lo, lo, wild, lo, hi);
    hide Within, Bar, Median, Mad;
    MedianOfThree(lo, hi, wild);
    MedianOfThree(lo, lo, wild);
  }

  lemma WithinOfThree(a: real, b: real, c: real, lo: real, hi: real)
    requires lo <= a <= hi && lo <= b <= hi
    ensures Within([a, b, c], lo, hi) >= 2
  {
    assert [a, b, c][1..] == [b, c] && [b, c][1..] == [c];
  }

  lemma MedianOfThree(a: real, b: real, c: real)
    requires a <= b && c - b >= b - a
    ensures Median([a, b, c]) == b && Mad([a, b, c]) == b - a
  {
    var d := Deviations([a, b, c], b);
    assert d == [b - a, 0.0, c - b];
    SortThree([a, b, c], a, b, c);
    SortThree(d, 0.0, b - a, c - b);
  }

  /** Three values in either of the two orders met here. */
  lemma SortThree(s: seq<real>, a: real, b: real, c: real)
    requires a <= b <= c && (s == [a, b, c] || s == [b, a, c])
    ensures Sort(s) == [a, b, c]
  {
    var x := s[1];
    assert s[1..] == [x, c] && [x, c][1..] == [c] && [c][1..] == [];
    assert Sort([c]) == [c];
    assert Sort([x, c]) == [x, c];
    if s != [a, b, c] {
      assert [a, c][1..] == [c] && Insert(b, [c]) == [b, c];
    }
  }

  /** For k >= 1 the bar is never below the upper of the two middle peers. */
  lemma BarAboveUpperMiddle(peers: seq<real>, floorS: real, k: real)
    requires peers != [] && k >= 1.0
    ensures Threshold(peers, floorS, k) >= UpperMiddle(peers)
  {
    hide Bar, Median, Mad;
    MadAtLeastHalfGap(peers);
    BarAbove(Median(peers), Mad(peers), floorS, k, 1.0);
  }

  // ---------- The whole fleet, leave-one-out

  /** The silences of every actuator but `name`. */
  function Peers(f: Fleet, name: string): (r: seq<real>)
    ensures |r| <= |f|
  {
    if f == [] then []
    else (if f[0].name != name then [f[0].silenceS] else []) + Peers(f[1..], name)
  }

  function Silences(f: Fleet): (r: seq<real>)
    ensures |r| == |f|
    ensures forall i :: 0 <= i < |f| ==> r[i] == f[i].silenceS
  {
    seq(|f|, i requires 0 <= i < |f| => f[i].silenceS)
  }

  lemma {:induction false} PeersOfStranger(f: Fleet, name: string)
    requires forall i :: 0 <= i < |f| ==> f[i].name != name
    ensures Peers(f, name) == Silences(f)
  {
    if f != [] {
      PeersOfStranger(f[1..], name);
      assert Silences(f) == [f[0].silenceS] + Silences(f[1..]);
    }
  }

  /** With distinct names, a valve's peers are the fleet's silences without its own entry. */
  lemma {:induction false} PeersLeaveOneOut(f: Fleet, i: nat)
    requires DistinctNames(f) && i < |f|
    ensures Peers(f, f[i].name) == Without(Silences(f), i)
  {
    if i == 0 {
      PeersOfStranger(f[1..], f[0].name);
      assert Without(Silences(f), 0) == Silences(f[1..]);
    } else {
      PeersLeaveOneOut(f[1..], i - 1);
      assert Silences(f) == [f[0].silenceS] + Silences(f[1..]);
      WithoutBehind(f[0].silenceS, Silences(f[1..]), i - 1);
    }
  }

  lemma WithoutBehind(x: real, s: seq<real>, i: nat)
    requires i < |s|
    ensures Without([x] + s, i + 1) == [x] + Without(s, i)
  {
    assert ([x] + s)[..i + 1] == [x] + s[..i] && ([x] + s)[i + 2..] == s[i + 1..];
  }

  /** The verdicts, one per actuator, in the dictionary's order. */
  function JudgeFleet(f: Fleet, floorS: real, k: real, minPeers: int): (v: seq<SilenceVerdict>)
    requires DistinctNames(f)
    requires |f| != 1 || minPeers > 0
    ensures |v| == |f|
  {
    seq(|f|, i requires 0 <= i < |f| => JudgeOne(f, i, floorS, k, minPeers))
  }

  function JudgeOne(f: Fleet, i: nat, floorS: real, k: real, minPeers: int): SilenceVerdict
    requires DistinctNames(f) && i < |f|
    requires |f| != 1 || minPeers > 0
  {
    PeersLeaveOneOut(f, i);
    JudgeSilence(f[i].silenceS, Peers(f, f[i].name), floorS, k, minPeers)
  }

  /** The SILENT test of valve `i`, on the plain sequence of silences. */
  ghost predicate IsSilent(s: seq<real>, i: nat, floorS: real, k: real, minPeers: int)
    requires i < |s|
  {
    |s| - 1 >= minPeers && |s| > 1 && s[i] > Threshold(Without(s, i), floorS, k)
  }

  lemma VerdictBySilences(f: Fleet, i: nat, floorS: real, k: real, minPeers: int)
    requires DistinctNames(f) && i < |f|
    requires |f| != 1 || minPeers > 0
    ensures JudgeFleet(f, floorS, k, minPeers)[i].status == Silent <==> IsSilent(Silences(f), i, floorS, k, minPeers)
    ensures JudgeFleet(f, floorS, k, minPeers)[i].status == Unknown <==> |f| - 1 < minPeers
    ensures JudgeFleet(f, floorS, k, minPeers)[i] == JudgeOne(f, i, floorS, k, minPeers)
  {
    PeersLeaveOneOut(f, i);
    assert JudgeFleet(f, floorS, k, minPeers)[i] == JudgeOne(f, i, floorS, k, minPeers);
  }

  /** Whatever the peers say, nothing up to the floor is SILENT. */
  lemma SilentIsAboveFloor(f: Fleet, i: nat, floorS: real, k: real, minPeers: int)
    requires DistinctNames(f) && i < |f|
    requires |f| != 1 || minPeers > 0
    requires JudgeFleet(f, floorS, k, minPeers)[i].status == Silent
    ensures f[i].silenceS > floorS
  {
    VerdictBySilences(f, i, floorS, k, minPeers);
  }

  // ---------- At most half of the fleet is ever accused

  function CountSilent(v: seq<SilenceVerdict>): (n: nat)
    ensures n <= |v|
  {
    if v == [] then 0 else (if v[0].status == Silent then 1 else 0) + CountSilent(v[1..])
  }

  /** A SILENT valve has more than half of the fleet, at least, strictly below it. */
  lemma SilentIsAboveHalf(s: seq<real>, i: nat, floorS: real, k: real, minPeers: int) returns (b: real)
    requires k >= 1.0 && i < |s|
    requires IsSilent(s, i, floorS, k, minPeers)
    ensures b < s[i]
    ensures 2 * AtMost(s, b) >= |s|
  {
    var peers := Without(s, i);
    BarAboveUpperMiddle(peers, floorS, k);
    b := UpperMiddle(peers);
    KthByCount(peers, |peers| / 2, b);
    AtMostWithout(s, i, b);
  }

  lemma {:induction false} LeastSilent(s: seq<real>, v: seq<SilenceVerdict>) returns (m: nat)
    requires |s| == |v| && CountSilent(v) > 0
    ensures m < |v| && v[m].status == Silent
    ensures forall j :: 0 <= j < |v| && v[j].status == Silent ==> s[m] <= s[j]
  {
    if v[0].status == Silent && CountSilent(v[1..]) == 0 {
      m := 0;
      forall j | 0 < j < |v| ensures v[j].status != Silent { NoSilent(v[1..], j - 1); }
    } else {
      var r := LeastSilent(s[1..], v[1..]);
      assert forall j :: 1 <= j < |v| && v[j].status == Silent ==> s[1..][r] <= s[1..][j - 1];
      m := if v[0].status == Silent && s[0] <= s[r + 1] then 0 else r + 1;
    }
  }

  lemma {:induction false} NoSilent(v: seq<SilenceVerdict>, j: nat)
    requires CountSilent(v) == 0 && j < |v|
    ensures v[j].status != Silent
  {
    if j > 0 { NoSilent(v[1..], j - 1); }
  }

  lemma {:induction false} SilentAboveBar(s: seq<real>, v: seq<SilenceVerdict>, b: real)
    requires |s| == |v|
    requires forall j :: 0 <= j < |v| && v[j].status == Silent ==> s[j] > b
    ensures CountSilent(v) + AtMost(s, b) <= |s|
  {
    if s != [] { SilentAboveBar(s[1..], v[1..], b); }
  }

  /** For k >= 1 no fleet, and no floor, ever gets more than half of its valves accused. */
  lemma AtMostHalfSilent(f: Fleet, floorS: real, k: real, minPeers: int)
    requires DistinctNames(f) && k >= 1.0
    requires |f| != 1 || minPeers > 0
    ensures CountSilent(JudgeFleet(f, floorS, k, minPeers)) <= |f| / 2
  {
    var s, v := Silences(f), JudgeFleet(f, floorS, k, minPeers);
    if CountSilent(v) > 0 {
      var m := LeastSilent(s, v);
      VerdictBySilences(f, m, floorS, k, minPeers);
      var b := SilentIsAboveHalf(s, m, floorS, k, minPeers);
      SilentAboveBar(s, v, b);
    }
  }

  /** The bound needs k >= 1: below it, two valves of this fleet of three are accused. */
  lemma HalfBoundNeedsK(k: real)
    requires 0.0 <= k < 1.0
    ensures var f := [Reading("a", 0.0), Reading("b", 1.0), Reading("c", 1.0)];
      DistinctNames(f) && CountSilent(JudgeFleet(f, 0.0, k, 2)) == 2
  {
    var f := [Reading("a", 0.0), Reading("b", 1.0), Reading("c", 1.0)];
    assert f[0].name[0] == 'a' && f[1].name[0] == 'b' && f[2].name[0] == 'c';
    var s := [0.0, 1.0, 1.0];
    assert Silences(f) == s;
    hide *;
    var v := JudgeFleet(f, 0.0, k, 2);
    OneDeafTwoLoud(s, k);
    VerdictBySilences(f, 0, 0.0, k, 2);
    VerdictBySilences(f, 1, 0.0, k, 2);
    VerdictBySilences(f, 2, 0.0, k, 2);
    CountOfThree(v);
  }

  lemma OneDeafTwoLoud(s: seq<real>, k: real)
    requires 0.0 <= k < 1.0 && s == [0.0, 1.0, 1.0]
    ensures !IsSilent(s, 0, 0.0, k, 2) && IsSilent(s, 1, 0.0, k, 2) && IsSilent(s, 2, 0.0, k, 2)
  {
    hide Threshold, Max;
    assert Without(s, 0) == [1.0, 1.0] && Without(s, 1) == [0.0, 1.0] && Without(s, 2) == [0.0, 1.0];
    BarsOfThree(k);
  }

  lemma BarsOfThree(k: real)
    requires 0.0 <= k < 1.0
    ensures Threshold([1.0, 1.0], 0.0, k) == 1.0 && Threshold([0.0, 1.0], 0.0, k) < 1.0
  {
    TwoPeersBar(0.0, 1.0, k);
    TwoPeersBar(1.0, 1.0, k);
    hide Threshold, Median, Mad;
  }

  lemma CountOfThree(v: seq<SilenceVerdict>)
    requires |v| == 3 && v[0].status != Silent && v[1].status == Silent && v[2].status == Silent
    ensures CountSilent(v) == 2
  {
    assert CountSilent(v[1..]) == 1 + CountSilent(v[1..][1..]);
    assert CountSilent(v[1..][1..]) == 1 + CountSilent(v[1..][1..][1..]);
  }

  lemma TwoPeersBar(a: real, b: real, k: real)
    requires a <= b && k >= 0.0
    ensures Median([a, b]) == (a + b) / 2.0 && Mad([a, b]) == (b - a) / 2.0
    ensures Threshold([a, b], 0.0, k) == Max((a + b) / 2.0 + k * ((b - a) / 2.0), 0.0)
  {
    hide Sort;
    SortTwo(a, b);
    var c, d := (a + b) / 2.0, (b - a) / 2.0;
    assert Deviations([a, b], c) == [d, d];
    SortTwo(d, d);
  }

  lemma SortTwo(a: real, b: real)
    requires a <= b
    ensures Sort([a, b]) == [a, b]
  {
    assert [a, b][1..] == [b] && [b][1..] == [];
    assert Sort([b]) == [b];
  }

  // ---------- A quieter valve is never excused

  /** Swapping one left-out entry for a larger one leaves no more small entries behind. */
  lemma SwapLeftOut(s: seq<real>, i: nat, j: nat, z: real)
    requires i < |s| && j < |s|
    ensures AtMost(Without(s, j), z) - AtMost(Without(s, i), z)
         == (if s[i] <= z then 1 else 0) - (if s[j] <= z then 1 else 0)
  {
    AtMostWithout(s, i, z);
    AtMostWithout(s, j, z);
  }

  /** Order statistics below both swapped entries do not notice the swap. */
  lemma SwapKeepsKth(s: seq<real>, i: nat, j: nat, k: nat)
    requires i < |s| && j < |s| && k < |s| - 1
    requires s[i] <= s[j]
    requires Kth(Without(s, i), k) < s[i]
    ensures Kth(Without(s, j), k) == Kth(Without(s, i), k)
  {
    var p, q := Without(s, i), Without(s, j);
    SwapLeftOut(s, i, j, Kth(p, k));
    KthDominated(q, p, k);
    SwapLeftOut(s, i, j, Kth(q, k));
    KthDominated(p, q, k);
  }

  lemma SwapKeepsMedian(s: seq<real>, i: nat, j: nat)
    requires i < |s| && j < |s| && |s| > 1
    requires s[i] <= s[j]
    requires UpperMiddle(Without(s, i)) < s[i]
    ensures Median(Without(s, j)) == Median(Without(s, i))
  {
    var p := Without(s, i);
    KthMonotone(p, (|p| - 1) / 2, |p| / 2);
    SwapKeepsKth(s, i, j, (|p| - 1) / 2);
    SwapKeepsKth(s, i, j, |p| / 2);
    MedianOfMiddles(p);
    MedianOfMiddles(Without(s, j));
  }

  lemma DeviationsWithout(s: seq<real>, i: nat, c: real)
    requires i < |s|
    ensures Deviations(Without(s, i), c) == Without(Deviations(s, c), i)
  {
  }

  /** Around a common centre below both, leaving out the larger entry cannot widen the spread. */
  lemma SwapShrinksSpread(s: seq<real>, i: nat, j: nat, c: real)
    requires i < |s| && j < |s| && |s| > 1
    requires c <= s[i] <= s[j]
    ensures Median(Deviations(Without(s, j), c)) <= Median(Deviations(Without(s, i), c))
  {
    var d := Deviations(s, c);
    DeviationsWithout(s, i, c);
    DeviationsWithout(s, j, c);
    var p, q := Without(d, i), Without(d, j);
    var lower, upper := (|p| - 1) / 2, |p| / 2;
    SwapLeftOut(d, i, j, Kth(p, lower));
    KthDominated(q, p, lower);
    SwapLeftOut(d, i, j, Kth(p, upper));
    KthDominated(q, p, upper);
    MedianOfMiddles(p);
    MedianOfMiddles(q);
  }

  /** The bar that accuses a valve is no lower than the bar of any valve at least as quiet. */
  lemma QuieterHasLowerBar(s: seq<real>, i: nat, j: nat, floorS: real, k: real)
    requires i < |s| && j < |s| && |s| > 1 && k >= 1.0
    requires s[i] <= s[j]
    requires s[i] > Threshold(Without(s, i), floorS, k)
    ensures Threshold(Without(s, j), floorS, k) <= Threshold(Without(s, i), floorS, k)
  {
    var p, q := Without(s, i), Without(s, j);
    BarAboveUpperMiddle(p, floorS, k);
    MedianOfMiddles(p);
    SwapKeepsMedian(s, i, j);
    SwapShrinksSpread(s, i, j, Median(p));
    BarMonotone(Median(q), Mad(q), Median(p), Mad(p), floorS, k);
  }

  /** For k >= 1 the verdict is upward closed, though every valve faces a different peer set. */
  lemma SilentIsUpwardClosed(f: Fleet, i: nat, j: nat, floorS: real, k: real, minPeers: int)
    requires DistinctNames(f) && k >= 1.0 && i < |f| && j < |f|
    requires |f| != 1 || minPeers > 0
    requires f[i].silenceS <= f[j].silenceS
    requires JudgeFleet(f, floorS, k, minPeers)[i].status == Silent
    ensures JudgeFleet(f, floorS, k, minPeers)[j].status == Silent
  {
    VerdictBySilences(f, i, floorS, k, minPeers);
    VerdictBySilences(f, j, floorS, k, minPeers);
    QuieterHasLowerBar(Silences(f), i, j, floorS, k);
  }

  // ---------- Silence shared by the whole mesh

  function Delayed(f: Fleet, t: real): (r: Fleet)
    ensures |r| == |f|
    ensures forall i :: 0 <= i < |f| ==> r[i] == Reading(f[i].name, f[i].silenceS + t)
  {
    seq(|f|, i requires 0 <= i < |f| => Reading(f[i].name, f[i].silenceS + t))
  }

  /**
   When every silence grows by the same `t` the relative test does not move: the verdict is
   the one the original fleet would get under a floor lowered by `t`.
   */
  lemma SharedSilenceOnlyMovesTheFloor(f: Fleet, t: real, i: nat, floorS: real, lowered: real, k: real, minPeers: int)
    requires DistinctNames(f) && i < |f| && lowered == floorS - t
    requires |f| != 1 || minPeers > 0
    ensures DistinctNames(Delayed(f, t))
    ensures JudgeFleet(Delayed(f, t), floorS, k, minPeers)[i].status == JudgeFleet(f, lowered, k, minPeers)[i].status
  {
    VerdictBySilences(Delayed(f, t), i, floorS, k, minPeers);
    VerdictBySilences(f, i, lowered, k, minPeers);
    DelayedSilences(f, t);
    SilentShifted(Silences(f), t, i, floorS, k, minPeers);
  }

  lemma DelayedSilences(f: Fleet, t: real)
    ensures Silences(Delayed(f, t)) == Shifted(Silences(f), t)
  {
  }

  lemma SilentShifted(s: seq<real>, t: real, i: nat, floorS: real, k: real, minPeers: int)
    requires i < |s|
    ensures IsSilent(Shifted(s, t), i, floorS, k, minPeers) <==> IsSilent(s, i, floorS - t, k, minPeers)
  {
    if |s| > 1 {
      var p := Without(s, i);
      assert Without(Shifted(s, t), i) == Shifted(p, t);
      MedianShifted(p, t);
      MadShifted(p, t);
      BarMoves(Median(p), Mad(p), floorS, k, t);
    }
  }

  /** Equal silences, however long, accuse nobody. */
  lemma EqualSilencesAccuseNobody(f: Fleet, x: real, i: nat, floorS: real, k: real, minPeers: int)
    requires DistinctNames(f) && i < |f| && k >= 0.0
    requires |f| != 1 || minPeers > 0
    requires forall j :: 0 <= j < |f| ==> f[j].silenceS == x
    ensures JudgeFleet(f, floorS, k, minPeers)[i].status != Silent
  {
    VerdictBySilences(f, i, floorS, k, minPeers);
    var p := Without(Silences(f), i);
    if |f| > 1 {
      AllWithin(p, x);
      WildMinorityDecidesNothing(x, p, floorS, k, if minPeers <= |p| then minPeers else |p|, x, x);
    }
  }

  lemma {:induction false} AllWithin(s: seq<real>, x: real)
    requires forall j :: 0 <= j < |s| ==> s[j] == x
    ensures Within(s, x, x) == |s|
  {
    if s != [] { AllWithin(s[1..], x); }
  }

  // ---------- The floor: a high quantile of the silences that ended

  function Positive(s: seq<real>): (r: seq<real>)
    ensures |r| <= |s|
    ensures forall x :: x in r <==> x in s && x > 0.0
  {
    if s == [] then [] else
      assert forall x :: x in s <==> x == s[0] || x in s[1..];
      (if s[0] > 0.0 then [s[0]] else []) + Positive(s[1..])
  }

  function Ceil(x: real): (r: int)
    ensures r as real - 1.0 < x <= r as real
  {
    -((-x).Floor)
  }

  /** The nearest rank of a quantile among `n` samples, counting from 0. */
  function NearestRank(quantile: real, n: nat): (k: nat)
    requires n > 0
    ensures k < n
  {
    var ceiling := Ceil(quantile * n as real);
    var rank := if ceiling < 1 then 1 else ceiling;
    (if rank < n then rank else n) - 1
  }

  function SilenceFloor(intervals: seq<real>, quantile: real, minObservations: int): Option<real> {
    var usable := Sort(Positive(intervals));
    var n := |usable|;
    if n == 0 then None
    else if n < minObservations then Some(usable[n - 1])
    else Some(usable[NearestRank(quantile, n)])
  }

  lemma NearestRankIsTheShare(quantile: real, n: nat)
    requires n > 0 && 0.0 < quantile <= 1.0
    ensures NearestRank(quantile, n) as real < Share(quantile, n) <= NearestRank(quantile, n) as real + 1.0
    ensures Share(quantile, n) <= n as real
  {
    var x := quantile * n as real;
    assert 0.0 < x <= n as real;
    assert 1 <= Ceil(x) <= n;
  }

  /** The number of samples a quantile asks for. */
  function Share(quantile: real, n: nat): real {
    quantile * n as real
  }

  /**
   The floor is a silence that occurred. At least the quantile's share of the usable silences
   is at or below it, and with enough of them it is the least value of which that is true;
   with too few it is the longest of all.
   */
  lemma FloorIsNearestRank(intervals: seq<real>, quantile: real, minObservations: int)
    requires 0.0 < quantile <= 1.0
    ensures var usable := Positive(intervals);
      var r := SilenceFloor(intervals, quantile, minObservations);
      && (r == None <==> usable == [])
      && (r.Some? ==>
        && r.value in intervals && r.value > 0.0
        && AtMost(usable, r.value) as real >= Share(quantile, |usable|)
        && (|usable| < minObservations ==> AtMost(usable, r.value) == |usable|)
        && (|usable| >= minObservations ==>
              forall x :: x < r.value ==> AtMost(usable, x) as real < Share(quantile, |usable|)))
  {
    var usable := Positive(intervals);
    var n := |usable|;
    if n > 0 {
      NearestRankIsTheShare(quantile, n);
      var k := if n < minObservations then n - 1 else NearestRank(quantile, n);
      var r := Kth(usable, k);
      assert SilenceFloor(intervals, quantile, minObservations) == Some(r);
      KthIsAnEntry(usable, k);
      KthByCount(usable, k, r);
      forall x | x < r ensures AtMost(usable, x) <= k { KthByCount(usable, k, x); }
    }
  }

  /** The verdict on one valve of a fleet, in numbers: its peers are the silences before and after its own. */
  lemma FleetVerdictInNumbers(f: Fleet, i: nat, floorS: real, k: real, minPeers: int,
                              m: real, d: seq<real>, spread: real)
    requires DistinctNames(f) && i < |f| && |f| > 1 && minPeers < |f|
    requires var peers := Silences(f)[..i] + Silences(f)[i + 1..];
      IsMiddle(m, peers) && AreDistances(d, peers, m) && IsMiddle(spread, d)
    ensures var bar := if m + k * spread >= floorS then m + k * spread else floorS;
      JudgeFleet(f, floorS, k, minPeers)[i]
      == SilenceVerdict(if f[i].silenceS > bar then Silent else Live, f[i].silenceS, Some(m), Some(bar))
  {
    VerdictBySilences(f, i, floorS, k, minPeers);
    PeersLeaveOneOut(f, i);
    hide IsMiddle, AreDistances, JudgeSilence, JudgeFleet;
    VerdictInNumbers(f[i].silenceS, Without(Silences(f), i), floorS, k, minPeers, m, d, spread);
  }
}
