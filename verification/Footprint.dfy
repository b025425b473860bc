/** The cluster jobs' peaks judged by their median (`tools/footprint.py`), over real numbers. */
module Footprint {
  import opened Sorting

  predicate RealLe(a: real, b: real) {
    a <= b
  }

  function Ordered(values: seq<real>): (o: seq<real>)
    ensures |o| == |values|
  {
    Sort(values, RealLe)
  }

  /** `median` */
  function Median(values: seq<real>): real
    requires |values| > 0
  {
    var o := Ordered(values);
    var middle := |o| / 2;
    if |o| % 2 == 1 then o[middle] else (o[middle - 1] + o[middle]) / 2.0
  }

  lemma OrderedSorted(values: seq<real>)
    ensures Sorted(Ordered(values), RealLe)
  {
    SortSorted(values, RealLe);
  }

  /** The median does not depend on the order of the peaks. */
  lemma MedianOrderless(a: seq<real>, b: seq<real>)
    requires |a| > 0 && multiset(a) == multiset(b)
    ensures |b| > 0 && Median(b) == Median(a)
  {
    assert |multiset(a)| == |a| && |multiset(b)| == |b|;
    SortOrderless(a, b, RealLe);
  }

  // ---- counting ----

  function Count(s: seq<real>, p: real -> bool): nat {
    if |s| == 0 then 0 else Count(s[..|s| - 1], p) + if p(s[|s| - 1]) then 1 else 0
  }

  lemma {:induction false} CountFront(s: seq<real>, p: real -> bool)
    requires |s| > 0
    ensures Count(s, p) == (if p(s[0]) then 1 else 0) + Count(s[1..], p)
  {
    if |s| > 1 {
      CountFront(s[..|s| - 1], p);
      assert s[..|s| - 1][1..] == s[1..][..|s| - 2];
    }
  }

  lemma {:induction false} CountInsert(x: real, s: seq<real>, p: real -> bool)
    ensures Count(Insert(x, s, RealLe), p) == (if p(x) then 1 else 0) + Count(s, p)
  {
    var r := Insert(x, s, RealLe);
    assert multiset(r) == multiset{x} + multiset(s);
    assert |multiset(r)| == |r|;
    CountFront(r, p);
    if |s| > 0 {
      CountFront(s, p);
      if !RealLe(x, s[0]) {
        CountInsert(x, s[1..], p);
        assert r[1..] == Insert(x, s[1..], RealLe);
      } else {
        assert r[1..] == s;
      }
    }
  }

  /** Sorting keeps every count. */
  lemma {:induction false} CountOrdered(s: seq<real>, p: real -> bool)
    ensures Count(Ordered(s), p) == Count(s, p)
  {
    if |s| > 0 {
      CountOrdered(s[1..], p);
      CountFront(s, p);
      CountInsert(s[0], Ordered(s[1..]), p);
    }
  }

  lemma {:induction false} CountWithin(s: seq<real>, p: real -> bool, places: set<nat>)
    requires forall i :: 0 <= i < |s| && p(s[i]) ==> i in places
    ensures Count(s, p) <= |places|
  {
    if |s| > 0 {
      var n := |s| - 1;
      CountWithin(s[..n], p, places - {n});
    }
  }

  lemma {:induction false} CountAtLeast(s: seq<real>, p: real -> bool, places: set<nat>)
    requires forall i :: i in places ==> i < |s| && p(s[i])
    ensures Count(s, p) >= |places|
  {
    if |s| == 0 {
      assert places == {};
    } else {
      var n := |s| - 1;
      CountAtLeast(s[..n], p, places - {n});
    }
  }

  /** In a sorted sequence, everything from the first value above `x` on is above it. */
  lemma {:induction false} TailAbove(o: seq<real>, p: real -> bool, x: real, k: nat)
    requires Sorted(o, RealLe) && k < |o| && o[k] > x
    requires forall y :: p(y) <==> y > x
    ensures Count(o, p) >= |o| - k
  {
    assert RealLe(o[k], o[|o| - 1]);
    if k < |o| - 1 {
      TailAbove(o[..|o| - 1], p, x, k);
    }
  }

  lemma {:induction false} HeadBelow(o: seq<real>, p: real -> bool, x: real, k: nat)
    requires Sorted(o, RealLe) && k < |o| && o[k] < x
    requires forall y :: p(y) <==> y < x
    ensures Count(o, p) >= k + 1
  {
    if k < |o| - 1 {
      HeadBelow(o[..|o| - 1], p, x, k);
    } else if k > 0 {
      assert RealLe(o[k - 1], o[k]);
      HeadBelow(o[..|o| - 1], p, x, k - 1);
    }
  }

  /** In a sorted sequence with enough values above `x`, a place far enough up is above it. */
  lemma {:induction false} EnoughAbove(o: seq<real>, p: real -> bool, x: real, k: nat)
    requires Sorted(o, RealLe) && k < |o| && Count(o, p) >= |o| - k
    requires forall y :: p(y) <==> y > x
    ensures o[k] > x
  {
    if !(o[k] > x) {
      AtMostAbove(o, p, x, k);
    }
  }

  lemma {:induction false} AtMostAbove(o: seq<real>, p: real -> bool, x: real, k: nat)
    requires Sorted(o, RealLe) && k < |o| && o[k] <= x
    requires forall y :: p(y) <==> y > x
    ensures Count(o, p) < |o| - k
    decreases |o|
  {
    if k < |o| - 1 {
      AtMostAbove(o[..|o| - 1], p, x, k);
    } else {
      NoneAbove(o, p, x);
    }
  }

  lemma {:induction false} NoneAbove(o: seq<real>, p: real -> bool, x: real)
    requires Sorted(o, RealLe) && |o| > 0 && o[|o| - 1] <= x
    requires forall y :: p(y) <==> y > x
    ensures Count(o, p) == 0
  {
    if |o| > 1 {
      assert RealLe(o[|o| - 2], o[|o| - 1]);
      NoneAbove(o[..|o| - 1], p, x);
    }
  }

  // ---- what the median is ----

  lemma {:induction false} AtMostBelow(o: seq<real>, below: real -> bool, x: real, k: nat)
    requires Sorted(o, RealLe) && k < |o| && o[k] >= x
    requires forall y :: below(y) <==> y < x
    ensures Count(o, below) <= k
    decreases |o|
  {
    if k < |o| - 1 {
      assert RealLe(o[k], o[|o| - 1]);
      AtMostBelow(o[..|o| - 1], below, x, k);
    } else {
      CountAtMost(o[..k], below);
    }
  }

  lemma {:induction false} CountAtMost(s: seq<real>, p: real -> bool)
    ensures Count(s, p) <= |s|
  {
    if |s| > 0 {
      CountAtMost(s[..|s| - 1], p);
    }
  }

  /** No more than half the peaks are below the median, and no more than half above it. */
  lemma MedianHalves(values: seq<real>, below: real -> bool, above: real -> bool)
    requires |values| > 0
    requires forall y :: below(y) <==> y < Median(values)
    requires forall y :: above(y) <==> y > Median(values)
    ensures 2 * Count(values, below) <= |values| && 2 * Count(values, above) <= |values|
  {
    var o, middle, m := Ordered(values), |values| / 2, Median(values);
    OrderedSorted(values);
    CountOrdered(values, below);
    CountOrdered(values, above);
    var low := if |values| % 2 == 1 then middle else middle - 1;
    assert low < middle ==> RealLe(o[low], o[middle]);
    AtMostBelow(o, below, m, middle);
    AtMostAbove(o, above, m, low);
  }

  /** A peak at a place in the order of all: no more than `k` below it, and more than `k` that are not above. */
  ghost predicate AtRank(values: seq<real>, x: real, k: nat) {
    var below, upTo := (y: real) => y < x, (y: real) => y <= x;
    Count(values, below) <= k < Count(values, upTo)
  }

  lemma {:induction false} HeadUpTo(o: seq<real>, upTo: real -> bool, x: real, k: nat)
    requires Sorted(o, RealLe) && k < |o| && o[k] <= x
    requires forall y :: upTo(y) <==> y <= x
    ensures Count(o, upTo) >= k + 1
  {
    if k < |o| - 1 {
      HeadUpTo(o[..|o| - 1], upTo, x, k);
    } else if k > 0 {
      assert RealLe(o[k - 1], o[k]);
      HeadUpTo(o[..|o| - 1], upTo, x, k - 1);
    }
  }

  lemma OrderedAtRank(values: seq<real>, k: nat)
    requires k < |values|
    ensures AtRank(values, Ordered(values)[k], k) && Ordered(values)[k] in values
  {
    var o, x := Ordered(values), Ordered(values)[k];
    var below, upTo := (y: real) => y < x, (y: real) => y <= x;
    OrderedSorted(values);
    assert o[k] in multiset(o);
    hide Ordered;
    CountOrdered(values, below);
    CountOrdered(values, upTo);
    AtMostBelow(o, below, x, k);
    HeadUpTo(o, upTo, x, k);
  }

  /** Twice the median is the sum of two of the peaks, the middle ones: one peak of an odd number twice over,
      and of an even number the two on either side of the middle. */
  lemma MedianExactly(values: seq<real>) returns (a: real, b: real)
    requires |values| > 0
    ensures 2.0 * Median(values) == a + b && a in values && b in values
    ensures AtRank(values, a, (|values| - 1) / 2) && AtRank(values, b, |values| / 2)
  {
    var n := |values|;
    a, b := Ordered(values)[(n - 1) / 2], Ordered(values)[n / 2];
    OrderedAtRank(values, (n - 1) / 2);
    OrderedAtRank(values, n / 2);
    hide AtRank, Ordered;
  }

  /** No two numbers stand at one place. */
  lemma RankIsOne(values: seq<real>, x: real, y: real, k: nat)
    requires AtRank(values, x, k) && AtRank(values, y, k)
    ensures x == y
  {
    if x < y {
      FewerBelow(values, x, y);
    } else if y < x {
      FewerBelow(values, y, x);
    }
  }

  lemma FewerBelow(values: seq<real>, x: real, y: real)
    requires x < y
    ensures var below, upTo := (z: real) => z < y, (z: real) => z <= x;
            Count(values, upTo) <= Count(values, below)
  {
    CountsOrdered(values, (z: real) => z <= x, (z: real) => z < y);
  }

  lemma {:induction false} CountsOrdered(s: seq<real>, p: real -> bool, q: real -> bool)
    requires forall z :: p(z) ==> q(z)
    ensures Count(s, p) <= Count(s, q)
  {
    if |s| > 0 {
      CountsOrdered(s[..|s| - 1], p, q);
    }
  }

  function Negated(s: seq<real>): (r: seq<real>)
    ensures |r| == |s| && forall i :: 0 <= i < |s| ==> r[i] == -s[i]
  {
    seq(|s|, i requires 0 <= i < |s| => -s[i])
  }

  function Flipped(s: seq<real>): (r: seq<real>)
    ensures |r| == |s| && forall i :: 0 <= i < |s| ==> r[i] == -s[|s| - 1 - i]
  {
    seq(|s|, i requires 0 <= i < |s| => -s[|s| - 1 - i])
  }

  /** How often a peak occurs. */
  function Times(s: seq<real>, x: real): nat {
    multiset(s)[x]
  }

  lemma LastTimes(s: seq<real>, y: real, x: real)
    ensures Times(s + [y], x) == Times(s, x) + if x == y then 1 else 0
    ensures Times([y] + s, x) == Times(s, x) + if x == y then 1 else 0
  {
  }

  lemma NegatedLast(s: seq<real>)
    requires |s| > 0
    ensures s == s[..|s| - 1] + [s[|s| - 1]]
    ensures Negated(s) == Negated(s[..|s| - 1]) + [-s[|s| - 1]]
    ensures Flipped(s) == [-s[|s| - 1]] + Flipped(s[..|s| - 1])
  {
  }

  lemma NegatedNone(s: seq<real>, x: real)
    requires |s| == 0
    ensures Times(Negated(s), x) == Times(s, -x) == Times(Flipped(s), x)
  {
  }

  lemma {:induction false} NegatedTimes(s: seq<real>, x: real)
    ensures Times(Negated(s), x) == Times(s, -x)
    ensures Times(Flipped(s), x) == Times(s, -x)
  {
    hide Negated, Flipped, Times;
    if |s| == 0 {
      NegatedNone(s, x);
    } else {
      var before, last := s[..|s| - 1], s[|s| - 1];
      NegatedTimes(before, x);
      NegatedLast(s);
      LastTimes(Negated(before), -last, x);
      LastTimes(Flipped(before), -last, x);
      LastTimes(before, last, -x);
    }
  }

  /** Peaks mirrored, the median is mirrored: of an even number of peaks it lies as far from the middle one
      below as from the one above. */
  lemma MedianMirrors(values: seq<real>)
    requires |values| > 0
    ensures Median(Negated(values)) == -Median(values)
  {
    hide Ordered, Negated, Flipped;
    OrderedMirrors(values);
  }

  lemma SameTimes(a: seq<real>, b: seq<real>)
    ensures multiset(a) == multiset(b) <==> forall x :: Times(a, x) == Times(b, x)
  {
    if forall x :: Times(a, x) == Times(b, x) {
      forall x: real
        ensures multiset(a)[x] == multiset(b)[x]
      {
        assert Times(a, x) == Times(b, x);
      }
    }
  }

  lemma OrderedTimes(values: seq<real>, x: real)
    ensures Times(Ordered(values), x) == Times(values, x)
  {
  }

  lemma OrderedMirrors(values: seq<real>)
    ensures Ordered(Negated(values)) == Flipped(Ordered(values))
  {
    hide Sort, Sorted, Negated, Flipped, Times, Ordered;
    var o := Ordered(values);
    OrderedSorted(values);
    OrderedSorted(Negated(values));
    FlippedSorted(o);
    forall x: real
      ensures Times(Flipped(o), x) == Times(Ordered(Negated(values)), x)
    {
      NegatedTimes(values, x);
      NegatedTimes(o, x);
      OrderedTimes(values, -x);
      OrderedTimes(Negated(values), x);
    }
    SameTimes(Flipped(o), Ordered(Negated(values)));
    RealsOrdered();
    SortedUnique(Flipped(o), Ordered(Negated(values)), RealLe);
  }

  lemma RealsOrdered()
    ensures TotalOrder(RealLe)
  {
  }

  lemma FlippedSorted(o: seq<real>)
    requires Sorted(o, RealLe)
    ensures Sorted(Flipped(o), RealLe)
  {
    forall i, j | 0 <= i < j < |o|
      ensures RealLe(Flipped(o)[i], Flipped(o)[j])
    {
      assert RealLe(o[|o| - 1 - j], o[|o| - 1 - i]);
    }
  }

  // ---- how far replaced peaks can move the median ----

  /** `other` is `values` but for the peaks at `replaced`. */
  predicate SameBut(values: seq<real>, other: seq<real>, replaced: set<nat>) {
    && |other| == |values|
    && (forall i :: i in replaced ==> i < |values|)
    && forall i :: 0 <= i < |values| && i !in replaced ==> other[i] == values[i]
  }

  predicate LeftWithin(values: seq<real>, replaced: set<nat>, low: real, high: real) {
    forall i :: 0 <= i < |values| && i !in replaced ==> low <= values[i] <= high
  }

  lemma MedianAtMost(values: seq<real>, other: seq<real>, replaced: set<nat>, low: real, high: real)
    requires |values| > 0 && SameBut(values, other, replaced) && LeftWithin(values, replaced, low, high)
    requires 2 * |replaced| < |values|
    ensures Median(other) <= high
  {
    var o, middle := Ordered(other), |other| / 2;
    var above := (x: real) => x > high;
    OrderedSorted(other);
    CountOrdered(other, above);
    CountWithin(other, above, replaced);
    if o[middle] > high {
      TailAbove(o, above, high, middle);
    }
    assert |other| > 1 ==> RealLe(o[middle - 1], o[middle]);
  }

  lemma MedianAtLeast(values: seq<real>, other: seq<real>, replaced: set<nat>, low: real, high: real)
    requires |values| > 0 && SameBut(values, other, replaced) && LeftWithin(values, replaced, low, high)
    requires 2 * |replaced| < |values|
    ensures low <= Median(other)
  {
    var o, middle := Ordered(other), |other| / 2;
    var below := (x: real) => x < low;
    OrderedSorted(other);
    CountOrdered(other, below);
    CountWithin(other, below, replaced);
    var k := if |other| % 2 == 1 then middle else middle - 1;
    if o[k] < low {
      HeadBelow(o, below, low, k);
    }
    assert k < middle ==> RealLe(o[k], o[middle]);
  }

  /** A number no peak exceeds in size. */
  lemma {:induction false} Bounded(values: seq<real>) returns (size: real)
    ensures size >= 0.0 && forall i :: 0 <= i < |values| ==> -size <= values[i] <= size
  {
    if |values| == 0 {
      size := 0.0;
    } else {
      var rest := Bounded(values[..|values| - 1]);
      var last := values[|values| - 1];
      size := if last > rest then last else if -last > rest then -last else rest;
    }
  }

  lemma UpperHalfAbove(peaks: seq<real>, above: real -> bool, x: real)
    requires |peaks| > 0 && 2 * Count(peaks, above) >= |peaks| && forall y :: above(y) <==> y > x
    ensures Ordered(peaks)[|peaks| / 2] > x
  {
    hide Ordered, Count, Sorted;
    OrderedSorted(peaks);
    CountOrdered(peaks, above);
    EnoughAbove(Ordered(peaks), above, x, |peaks| / 2);
  }

  lemma OrderedAtLeast(peaks: seq<real>, least: real, k: nat)
    requires k < |peaks| && forall i :: 0 <= i < |peaks| ==> peaks[i] >= least
    ensures Ordered(peaks)[k] >= least
  {
    assert Ordered(peaks)[k] in multiset(Ordered(peaks));
    assert Ordered(peaks)[k] in peaks;
  }

  /** With half the peaks or more replaced, the median can be put above any number. */
  lemma MedianPutAbove(values: seq<real>, replaced: set<nat>, most: real) returns (other: seq<real>)
    requires |values| > 0 && 2 * |replaced| >= |values| && forall i :: i in replaced ==> i < |values|
    ensures SameBut(values, other, replaced) && Median(other) > most
  {
    var size := Bounded(values);
    var x := if most >= 0.0 then 2.0 * most + size else size;
    other := seq(|values|, i requires 0 <= i < |values| => if i in replaced then x + 1.0 else values[i]);
    hide Ordered, Count;
    var above := (y: real) => y > x;
    CountAtLeast(other, above, replaced);
    UpperHalfAbove(other, above, x);
    if |other| / 2 > 0 {
      OrderedAtLeast(other, -size, |other| / 2 - 1);
    }
  }

  /** Whatever `replaced` of the peaks become, the median stays between any bounds on those left exactly when
      fewer than half are replaced, for odd and even counts alike. */
  lemma MedianHoldsExactly(values: seq<real>, replaced: set<nat>)
    requires |values| > 0 && forall i :: i in replaced ==> i < |values|
    ensures (forall other, low, high :: SameBut(values, other, replaced) && LeftWithin(values, replaced, low, high) ==>
               low <= Median(other) <= high)
       <==> 2 * |replaced| < |values|
  {
    hide Median;
    if 2 * |replaced| < |values| {
      forall other, low, high | SameBut(values, other, replaced) && LeftWithin(values, replaced, low, high)
        ensures low <= Median(other) <= high
      {
        MedianAtMost(values, other, replaced, low, high);
        MedianAtLeast(values, other, replaced, low, high);
      }
    } else {
      var size := Bounded(values);
      var other := MedianPutAbove(values, replaced, size);
      assert LeftWithin(values, replaced, -size, size);
      assert SameBut(values, other, replaced);
    }
  }

  // ---- what is past the baseline ----

  datatype Limit = Limit(key: string, allowed: real)

  /** The source's LIMITS, in its order. */
  function Limits(): seq<Limit> {
    [Limit("pods", 0.0), Limit("memory_requested_mib", 0.15), Limit("memory_peak_mib", 0.15),
     Limit("cpu_requested_millicores", 0.15), Limit("disk_mib", 0.10)]
  }

  datatype Problem = Problem(key: string, now: real, most: real)

  function Most(baseline: map<string, real>, limit: Limit): real
    requires limit.key in baseline
  {
    baseline[limit.key] * (1.0 + limit.allowed)
  }

  predicate Past(baseline: map<string, real>, figures: map<string, real>, limit: Limit) {
    limit.key in baseline && limit.key in figures && figures[limit.key] > Most(baseline, limit) + 0.000000001
  }

  function Problems(baseline: map<string, real>, figures: map<string, real>, limits: seq<Limit>): seq<Problem> {
    if |limits| == 0 then []
    else
      var last := limits[|limits| - 1];
      Problems(baseline, figures, limits[..|limits| - 1])
      + if Past(baseline, figures, last) then [Problem(last.key, figures[last.key], Most(baseline, last))] else []
  }

  /** `held_to` */
  method HeldTo(baseline: map<string, real>, figures: map<string, real>) returns (problems: seq<Problem>)
    ensures problems == Problems(baseline, figures, Limits())
  {
    problems := [];
    var limits := Limits();
    for i := 0 to |limits|
      invariant problems == Problems(baseline, figures, limits[..i])
    {
      assert limits[..i + 1][..i] == limits[..i];
      var limit := limits[i];
      if limit.key !in baseline || limit.key !in figures {
        continue;
      }
      var base, now := baseline[limit.key], figures[limit.key];
      var most := base * (1.0 + limit.allowed);
      if now > most + 0.000000001 {
        problems := problems + [Problem(limit.key, now, most)];
      }
    }
    assert limits[..|limits|] == limits;
  }

  /** What `judge` gives: the median, and what is past the baseline. */
  function Judged(baseline: map<string, real>, peaks: seq<real>): (real, seq<Problem>)
    requires |peaks| > 0
  {
    (Median(peaks), Problems(baseline, map["memory_peak_mib" := Median(peaks)], Limits()))
  }

  method Judge(baseline: map<string, real>, peaks: seq<real>) returns (held: real, problems: seq<Problem>)
    requires |peaks| > 0
    ensures (held, problems) == Judged(baseline, peaks)
  {
    held := Median(peaks);
    problems := HeldTo(baseline, map["memory_peak_mib" := held]);
  }

  lemma {:induction false} NoProblemsExactly(baseline: map<string, real>, figures: map<string, real>,
                                             limits: seq<Limit>)
    ensures Problems(baseline, figures, limits) == [] <==> forall l :: l in limits ==> !Past(baseline, figures, l)
  {
    if |limits| > 0 {
      NoProblemsExactly(baseline, figures, limits[..|limits| - 1]);
      assert forall l :: l in limits <==> l in limits[..|limits| - 1] || l == limits[|limits| - 1];
    }
  }

  lemma {:induction false} ProblemsExactly(baseline: map<string, real>, figures: map<string, real>,
                                           limits: seq<Limit>, p: Problem)
    ensures p in Problems(baseline, figures, limits) <==>
            exists l :: l in limits && Past(baseline, figures, l)
                     && p == Problem(l.key, figures[l.key], Most(baseline, l))
  {
    hide Past;
    if |limits| > 0 {
      var before, last := limits[..|limits| - 1], limits[|limits| - 1];
      ProblemsExactly(baseline, figures, before, p);
      assert forall l :: l in limits <==> l in before || l == last;
      PastHasBoth(baseline, figures, last);
    }
  }

  lemma PastHasBoth(baseline: map<string, real>, figures: map<string, real>, limit: Limit)
    ensures Past(baseline, figures, limit) ==> limit.key in baseline && limit.key in figures
  {
  }

  /** The most each figure may be, over its baseline. */
  predicate AllowedUpTo(key: string, base: real, most: real) {
    || (key == "pods" && most == base)
    || (key == "memory_requested_mib" && most == base * 1.15)
    || (key == "memory_peak_mib" && most == base * 1.15)
    || (key == "cpu_requested_millicores" && most == base * 1.15)
    || (key == "disk_mib" && most == base * 1.1)
  }

  lemma LimitSays(baseline: map<string, real>, key: string, most: real)
    requires key in baseline
    ensures AllowedUpTo(key, baseline[key], most) <==>
            exists l :: l in Limits() && l.key == key && most == baseline[key] * (1.0 + l.allowed)
  {
    var ls, base := Limits(), baseline[key];
    assert ls[0] in ls && ls[1] in ls && ls[2] in ls && ls[3] in ls && ls[4] in ls;
    assert forall l :: l in ls ==> l == ls[0] || l == ls[1] || l == ls[2] || l == ls[3] || l == ls[4];
    assert base * (1.0 + 0.15) == base * 1.15 && base * (1.0 + 0.10) == base * 1.1 && base * (1.0 + 0.0) == base;
  }

  /** What is past the baseline: pods at all, memory requested or at its peak and CPU by more than 15 %, disk
      by more than 10 %, each that has a baseline and a figure. */
  lemma PastExactly(baseline: map<string, real>, figures: map<string, real>, p: Problem)
    ensures p in Problems(baseline, figures, Limits()) <==>
            && p.key in baseline && p.key in figures && p.now == figures[p.key]
            && AllowedUpTo(p.key, baseline[p.key], p.most) && p.now > p.most + 0.000000001
  {
    hide AllowedUpTo, Limits, Problems;
    ProblemsExactly(baseline, figures, Limits(), p);
    if p.key in baseline {
      LimitSays(baseline, p.key, p.most);
    }
  }

  /** `judge` reports nothing exactly when there is no baseline peak, or the median is within its limit. */
  lemma JudgeReportsNothingExactly(baseline: map<string, real>, peaks: seq<real>)
    requires |peaks| > 0
    ensures Judged(baseline, peaks).1 == []
       <==> ("memory_peak_mib" in baseline ==> Median(peaks) <= baseline["memory_peak_mib"] * 1.15 + 0.000000001)
  {
    hide Median;
    NoProblemsExactly(baseline, map["memory_peak_mib" := Median(peaks)], Limits());
    var limit := Limit("memory_peak_mib", 0.15);
    assert Limits()[2] == limit && limit in Limits();
    assert forall l :: l in Limits() && l.key == "memory_peak_mib" ==> l == limit;
  }

  /** So with fewer than half the peaks replaced by anything at all, and every peak left within the limit,
      `judge` reports nothing. */
  lemma FewOutliersNotReported(baseline: map<string, real>, values: seq<real>, other: seq<real>, replaced: set<nat>)
    requires |values| > 0 && SameBut(values, other, replaced) && 2 * |replaced| < |values|
    requires "memory_peak_mib" in baseline
    requires forall i :: 0 <= i < |values| && i !in replaced ==>
               values[i] <= baseline["memory_peak_mib"] * 1.15 + 0.000000001
    ensures Judged(baseline, other).1 == []
  {
    var size := Bounded(values);
    MedianAtMost(values, other, replaced, -size, baseline["memory_peak_mib"] * 1.15 + 0.000000001);
    JudgeReportsNothingExactly(baseline, other);
  }
}
