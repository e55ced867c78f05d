/**
 The order statistics behind the fleet judgement: a sort, the k-th smallest value, the median
 and the median absolute deviation.

 Every fact about them is reduced to counting. `AtMost(s, x)` is how many entries of `s` are
 at most `x`; `KthByCount` says that the k-th smallest value is at most `x` exactly when more
 than `k` entries are. From there no proof needs to look at the sort again.
 */
module OrderStatistics {

  ghost predicate Sorted(s: seq<real>) {
    forall i, j :: 0 <= i < j < |s| ==> s[i] <= s[j]
  }

  function Insert(x: real, s: seq<real>): (r: seq<real>)
    requires Sorted(s)
    ensures Sorted(r)
    ensures |r| == |s| + 1
    ensures r[0] == if s == [] || x <= s[0] then x else s[0]
  {
    if s == [] || x <= s[0] then [x] + s else [s[0]] + Insert(x, s[1..])
  }

  lemma {:induction false} InsertAdds(x: real, s: seq<real>)
    requires Sorted(s)
    ensures multiset(Insert(x, s)) == multiset{x} + multiset(s)
  {
    if s != [] && x > s[0] {
      InsertAdds(x, s[1..]);
      assert s == [s[0]] + s[1..];
    }
  }

  /** Python's `sorted`. */
  function Sort(s: seq<real>): (r: seq<real>)
    ensures Sorted(r)
    ensures |r| == |s|
  {
    if s == [] then [] else Insert(s[0], Sort(s[1..]))
  }

  lemma {:induction false} SortPermutes(s: seq<real>)
    ensures multiset(Sort(s)) == multiset(s)
  {
    if s != [] {
      SortPermutes(s[1..]);
      InsertAdds(s[0], Sort(s[1..]));
      assert s == [s[0]] + s[1..];
    }
  }

  /** How many entries of `s` are at most `x`. */
  function AtMost(s: seq<real>, x: real): (n: nat)
    ensures n <= |s|
  {
    if s == [] then 0 else (if s[0] <= x then 1 else 0) + AtMost(s[1..], x)
  }

  lemma {:induction false} AtMostConcat(a: seq<real>, b: seq<real>, x: real)
    ensures AtMost(a + b, x) == AtMost(a, x) + AtMost(b, x)
  {
    if a == [] {
      assert a + b == b;
    } else {
      assert (a + b)[1..] == a[1..] + b;
      AtMostConcat(a[1..], b, x);
    }
  }

  lemma {:induction false} AtMostInsert(x: real, s: seq<real>, y: real)
    requires Sorted(s)
    ensures AtMost(Insert(x, s), y) == (if x <= y then 1 else 0) + AtMost(s, y)
  {
    if s == [] || x <= s[0] {
      assert ([x] + s)[1..] == s;
    } else {
      AtMostInsert(x, s[1..], y);
      assert ([s[0]] + Insert(x, s[1..]))[1..] == Insert(x, s[1..]);
    }
  }

  lemma {:induction false} AtMostSort(s: seq<real>, y: real)
    ensures AtMost(Sort(s), y) == AtMost(s, y)
  {
    if s != [] {
      AtMostSort(s[1..], y);
      AtMostInsert(s[0], Sort(s[1..]), y);
    }
  }

  /** In a sorted sequence the entries at most `x` are a prefix. */
  lemma {:induction false} SortedPrefix(t: seq<real>, k: nat, x: real)
    requires Sorted(t) && k < |t|
    ensures t[k] <= x <==> k < AtMost(t, x)
  {
    if t[0] <= x {
      if k > 0 { SortedPrefix(t[1..], k - 1, x); }
    } else {
      NoneAtMost(t, x);
    }
  }

  lemma {:induction false} NoneAtMost(t: seq<real>, x: real)
    requires forall i :: 0 <= i < |t| ==> t[i] > x
    ensures AtMost(t, x) == 0
  {
    if t != [] { NoneAtMost(t[1..], x); }
  }

  /** The k-th smallest entry, counting from 0. */
  function Kth(s: seq<real>, k: nat): real
    requires k < |s|
  {
    Sort(s)[k]
  }

  /** The counting characterization of an order statistic, in both directions. */
  lemma KthByCount(s: seq<real>, k: nat, x: real)
    requires k < |s|
    ensures Kth(s, k) <= x <==> k < AtMost(s, x)
  {
    SortedPrefix(Sort(s), k, x);
    AtMostSort(s, x);
  }

  lemma KthIsAnEntry(s: seq<real>, k: nat)
    requires k < |s|
    ensures Kth(s, k) in s
  {
    SortPermutes(s);
    assert Sort(s)[k] in multiset(Sort(s));
  }

  lemma KthMonotone(s: seq<real>, j: nat, k: nat)
    requires j <= k < |s|
    ensures Kth(s, j) <= Kth(s, k)
  {
  }

  /** If `a` has at least as many small entries as `b`, its order statistics are no larger. */
  lemma KthDominated(a: seq<real>, b: seq<real>, k: nat)
    requires k < |a| == |b|
    requires AtMost(a, Kth(b, k)) >= AtMost(b, Kth(b, k))
    ensures Kth(a, k) <= Kth(b, k)
  {
    KthByCount(b, k, Kth(b, k));
    KthByCount(a, k, Kth(b, k));
  }

  /** `statistics.median`: the middle entry, or the mean of the two middle entries. */
  function Median(s: seq<real>): (m: real)
    requires s != []
  {
    var n := |s|;
    if n % 2 == 1 then Kth(s, n / 2) else (Kth(s, n / 2 - 1) + Kth(s, n / 2)) / 2.0
  }

  /** The lower of the two middle entries, and the upper: equal when the length is odd. */
  function LowerMiddle(s: seq<real>): real
    requires s != []
  {
    Kth(s, (|s| - 1) / 2)
  }

  function UpperMiddle(s: seq<real>): real
    requires s != []
  {
    Kth(s, |s| / 2)
  }

  lemma MedianOfMiddles(s: seq<real>)
    requires s != []
    ensures Median(s) == (LowerMiddle(s) + UpperMiddle(s)) / 2.0
    ensures LowerMiddle(s) <= Median(s) <= UpperMiddle(s)
  {
    KthMonotone(s, (|s| - 1) / 2, |s| / 2);
    if |s| % 2 == 0 { assert (|s| - 1) / 2 == |s| / 2 - 1; } else { assert (|s| - 1) / 2 == |s| / 2; }
  }

  function Abs(x: real): real {
    if x < 0.0 then -x else x
  }

  /** The distances of the entries from `c`, in order. */
  function Deviations(s: seq<real>, c: real): (d: seq<real>)
    ensures |d| == |s|
    ensures forall i :: 0 <= i < |s| ==> d[i] == Abs(s[i] - c)
  {
    seq(|s|, i requires 0 <= i < |s| => Abs(s[i] - c))
  }

  /** `mad`: the median absolute deviation, 0 for no values at all. */
  function Mad(s: seq<real>): real {
    if s == [] then 0.0 else Median(Deviations(s, Median(s)))
  }

  /** How many entries of `s` lie in `[lo, hi]`. */
  function Within(s: seq<real>, lo: real, hi: real): (n: nat)
    ensures n <= |s|
  {
    if s == [] then 0 else (if lo <= s[0] <= hi then 1 else 0) + Within(s[1..], lo, hi)
  }

  /** The entries within `[lo, hi]` are at most `hi`, and none of them is below `lo`. */
  lemma {:induction false} WithinBounds(s: seq<real>, lo: real, hi: real, x: real)
    ensures x >= hi ==> Within(s, lo, hi) <= AtMost(s, x)
    ensures x < lo ==> Within(s, lo, hi) + AtMost(s, x) <= |s|
  {
    if s != [] { WithinBounds(s[1..], lo, hi, x); }
  }

  /** A strict majority inside an interval traps both middle entries in it. */
  lemma MajorityTrapsMiddles(s: seq<real>, lo: real, hi: real)
    requires 2 * Within(s, lo, hi) > |s|
    ensures lo <= LowerMiddle(s) <= UpperMiddle(s) <= hi
  {
    WithinBounds(s, lo, hi, hi);
    KthByCount(s, |s| / 2, hi);
    KthMonotone(s, (|s| - 1) / 2, |s| / 2);
    var low := LowerMiddle(s);
    KthByCount(s, (|s| - 1) / 2, low);
    WithinBounds(s, lo, hi, low);
  }

  /** From a centre inside the interval, the majority's deviations are at most its width. */
  lemma {:induction false} WithinDeviations(s: seq<real>, lo: real, hi: real, c: real)
    requires lo <= c <= hi
    ensures Within(s, lo, hi) <= Within(Deviations(s, c), 0.0, hi - lo)
  {
    if s != [] {
      WithinDeviations(s[1..], lo, hi, c);
      assert Deviations(s, c)[1..] == Deviations(s[1..], c);
    }
  }

  /**
   The breakdown point of the two estimators: whatever a strict minority of the values says,
   the median stays between the bounds of the majority and the spread within its width.
   */
  lemma MedianAndMadBreakdown(s: seq<real>, lo: real, hi: real)
    requires 2 * Within(s, lo, hi) > |s|
    ensures lo <= Median(s) <= hi
    ensures 0.0 <= Mad(s) <= hi - lo
  {
    MajorityTrapsMiddles(s, lo, hi);
    MedianOfMiddles(s);
    var d := Deviations(s, Median(s));
    WithinDeviations(s, lo, hi, Median(s));
    MajorityTrapsMiddles(d, 0.0, hi - lo);
    MedianOfMiddles(d);
  }

  /** Every deviation is at least half the gap between the two middle entries, so the MAD is. */
  lemma MadAtLeastHalfGap(s: seq<real>)
    requires s != []
    ensures Mad(s) >= UpperMiddle(s) - Median(s) >= 0.0
  {
    MedianOfMiddles(s);
    var c, h := Median(s), UpperMiddle(s) - Median(s);
    var d := Deviations(s, c);
    forall i | 0 <= i < |s|
      ensures d[i] >= h
    {
      NoEntryBetweenMiddles(s, i);
    }
    MedianOfMiddles(d);
    KthIsAnEntry(d, (|d| - 1) / 2);
    KthIsAnEntry(d, |d| / 2);
  }

  lemma NoEntryBetweenMiddles(s: seq<real>, i: nat)
    requires i < |s|
    ensures s[i] <= LowerMiddle(s) || s[i] >= UpperMiddle(s)
  {
    SortPermutes(s);
    assert s[i] in multiset(s);
    assert s[i] in multiset(Sort(s));
    var j :| 0 <= j < |Sort(s)| && Sort(s)[j] == s[i];
    if j <= (|s| - 1) / 2 {
      KthMonotone(s, j, (|s| - 1) / 2);
    } else {
      KthMonotone(s, |s| / 2, j);
    }
  }

  /** `s` without its entry `i`. */
  function Without<T>(s: seq<T>, i: nat): (r: seq<T>)
    requires i < |s|
    ensures |r| == |s| - 1
  {
    s[..i] + s[i + 1..]
  }

  lemma AtMostWithout(s: seq<real>, i: nat, x: real)
    requires i < |s|
    ensures AtMost(s, x) == AtMost(Without(s, i), x) + (if s[i] <= x then 1 else 0)
  {
    assert s == s[..i] + ([s[i]] + s[i + 1..]);
    AtMostConcat(s[..i], [s[i]] + s[i + 1..], x);
    AtMostConcat([s[i]], s[i + 1..], x);
    AtMostConcat(s[..i], s[i + 1..], x);
  }

  /** `s` with `t` added to every entry. */
  function Shifted(s: seq<real>, t: real): (r: seq<real>)
    ensures |r| == |s|
    ensures forall i :: 0 <= i < |s| ==> r[i] == s[i] + t
  {
    seq(|s|, i requires 0 <= i < |s| => s[i] + t)
  }

  lemma {:induction false} AtMostShifted(s: seq<real>, t: real, x: real)
    ensures AtMost(Shifted(s, t), x + t) == AtMost(s, x)
  {
    if s != [] {
      AtMostShifted(s[1..], t, x);
      assert Shifted(s, t)[1..] == Shifted(s[1..], t);
    }
  }

  lemma KthShifted(s: seq<real>, t: real, k: nat)
    requires k < |s|
    ensures Kth(Shifted(s, t), k) == Kth(s, k) + t
  {
    var u := Shifted(s, t);
    var x, y := Kth(s, k), Kth(u, k) - t;
    AtMostShifted(s, t, x);
    AtMostShifted(s, t, y);
    KthByCount(s, k, x);
    KthByCount(s, k, y);
    KthByCount(u, k, x + t);
    KthByCount(u, k, y + t);
  }

  /** A common shift moves the median with it and leaves the spread alone. */
  lemma MedianShifted(s: seq<real>, t: real)
    requires s != []
    ensures Median(Shifted(s, t)) == Median(s) + t
  {
    if |s| % 2 == 0 { KthShifted(s, t, |s| / 2 - 1); }
    KthShifted(s, t, |s| / 2);
  }

  lemma MadShifted(s: seq<real>, t: real)
    ensures Mad(Shifted(s, t)) == Mad(s)
  {
    if s != [] {
      MedianShifted(s, t);
      DeviationsShifted(s, t, Median(s));
    }
  }

  lemma DeviationsShifted(s: seq<real>, t: real, c: real)
    ensures Deviations(Shifted(s, t), c + t) == Deviations(s, c)
  {
    forall i | 0 <= i < |s|
      ensures Deviations(Shifted(s, t), c + t)[i] == Deviations(s, c)[i]
    {
      assert Shifted(s, t)[i] - (c + t) == s[i] - c;
    }
  }

  // ---------- The estimators in numbers

  /** Half the sum of the two middle entries, which are one and the same for an odd length. */
  lemma MedianInNumbers(s: seq<real>)
    requires s != []
    ensures Median(s) == (Sort(s)[(|s| - 1) / 2] + Sort(s)[|s| / 2]) / 2.0
  {
    MedianOfMiddles(s);
  }

  /** `d` holds the distances of the entries of `s` from `c`. */
  ghost predicate AreDistances(d: seq<real>, s: seq<real>, c: real) {
    |d| == |s| && forall i :: 0 <= i < |s| ==> d[i] == if s[i] >= c then s[i] - c else c - s[i]
  }

  /** The same half sum, of the distances from the median. */
  lemma MadInNumbers(s: seq<real>, d: seq<real>)
    requires s != [] && AreDistances(d, s, Median(s))
    ensures Mad(s) == (Sort(d)[(|s| - 1) / 2] + Sort(d)[|s| / 2]) / 2.0
  {
    hide Median;
    assert d == Deviations(s, Median(s));
    MedianInNumbers(d);
  }
}
