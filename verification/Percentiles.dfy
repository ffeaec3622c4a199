// Percentiles of a cumulative Prometheus histogram, over the reals.
module Percentiles {
  import opened Wrappers
  import opened PromMetrics

  datatype Entry = Entry(le: Bound, count: int)

  // 1e308
  const INF_CUTOFF: real := Power10(308) as real

  function Power10(n: nat): int {
    if n == 0 then 1 else 10 * Power10(n - 1)
  }

  predicate IsInfPlus(b: Bound) {
    b.PlusInf? || b.r > INF_CUTOFF
  }

  ghost predicate Sorted(all: seq<Entry>) {
    forall i, j | 0 <= i < j < |all| :: Below(all[i].le, all[j].le)
  }

  ghost predicate Lists(all: seq<Entry>, le: Bound) {
    exists i :: 0 <= i < |all| && all[i].le == le
  }

  // The buckets in ascending order of their bounds.
  ghost predicate SortedListing(all: seq<Entry>, buckets: map<Bound, int>) {
    && Sorted(all) && |all| == |buckets|
    && (forall i | 0 <= i < |all| :: all[i].le in buckets && all[i].count == buckets[all[i].le])
    && (forall le | le in buckets :: Lists(all, le))
  }

  // The first entry whose cumulative count reaches the target.
  function Reaching(all: seq<Entry>, target: real): (n: nat)
    ensures n <= |all|
    ensures forall i | 0 <= i < n :: all[i].count as real < target
    ensures n < |all| ==> all[n].count as real >= target
  {
    if all == [] || all[0].count as real >= target then 0 else 1 + Reaching(all[1..], target)
  }

  function LowerBound(all: seq<Entry>, i: nat): real
    requires i < |all|
  {
    if i == 0 then 0.0 else if all[i - 1].le.Finite? then all[i - 1].le.r else 0.0
  }

  function LowerCount(all: seq<Entry>, i: nat): real
    requires i < |all|
  {
    if i == 0 then 0.0 else all[i - 1].count as real
  }

  function Interpolated(lo: real, loCount: real, hi: real, hiCount: real, target: real): real {
    if hiCount - loCount <= 0.0 then hi * 1000.0
    else (lo + (target - loCount) / (hiCount - loCount) * (hi - lo)) * 1000.0
  }

  // The percentile whose target is that many observations.
  function AtTarget(all: seq<Entry>, target: real): Option<real> {
    var i := Reaching(all, target);
    if i == |all| || IsInfPlus(all[i].le) then None
    else Some(Interpolated(LowerBound(all, i), LowerCount(all, i), all[i].le.r, all[i].count as real, target))
  }

  // Puts an entry at its place in a sorted list.
  function Inserted(all: seq<Entry>, e: Entry): seq<Entry> {
    if all == [] || Below(e.le, all[0].le) then [e] + all else [all[0]] + Inserted(all[1..], e)
  }

  lemma {:induction false} InsertedSorted(all: seq<Entry>, e: Entry)
    requires Sorted(all) && forall i | 0 <= i < |all| :: all[i].le != e.le
    ensures Sorted(Inserted(all, e)) && |Inserted(all, e)| == |all| + 1
    ensures forall x :: x in Inserted(all, e) <==> x in all || x == e
  {
    if all != [] && !Below(e.le, all[0].le) {
      InsertedSorted(all[1..], e);
      var rest := Inserted(all[1..], e);
      assert Below(all[0].le, e.le);
      forall j | 0 <= j < |rest| ensures Below(all[0].le, rest[j].le) {
        assert rest[j] in rest;
        if rest[j] != e {
          var i :| 0 <= i < |all| - 1 && all[1..][i] == rest[j];
          assert all[i + 1] == rest[j];
        }
      }
    }
  }

  method SortedEntries(buckets: map<Bound, int>) returns (all: seq<Entry>)
    ensures SortedListing(all, buckets)
  {
    all := [];
    var todo := buckets.Keys;
    while todo != {}
      invariant todo <= buckets.Keys && Sorted(all) && |all| == |buckets.Keys| - |todo|
      invariant forall x | x in all :: x.le in buckets && x.le !in todo && x.count == buckets[x.le]
      invariant forall le | le in buckets && le !in todo :: Entry(le, buckets[le]) in all
      decreases todo
    {
      var le :| le in todo;
      InsertedSorted(all, Entry(le, buckets[le]));
      all := Inserted(all, Entry(le, buckets[le]));
      todo := todo - {le};
    }
    forall le | le in buckets ensures Lists(all, le) {
      assert Entry(le, buckets[le]) in all;
    }
  }

  method PercentileFromBuckets(buckets: map<Bound, int>, total: int, p: real) returns (r: Option<real>)
    ensures total < 5 || buckets == map[] ==> r == None
    ensures total >= 5 ==> exists all :: SortedListing(all, buckets) && r == AtTarget(all, total as real * p)
  {
    var all := SortedEntries(buckets);
    if total < 5 || |buckets| == 0 {
      return None;
    }
    r := Walk(all, total as real * p);
  }

  method Interpolate(prevLE: real, prevCount: real, le: real, count: real, target: real) returns (ms: real)
    ensures ms == Interpolated(prevLE, prevCount, le, count, target)
  {
    var span := count - prevCount;
    if span <= 0.0 {
      return le * 1000.0;
    }
    var frac := (target - prevCount) / span;
    return (prevLE + frac * (le - prevLE)) * 1000.0;
  }

  method Walk(all: seq<Entry>, target: real) returns (r: Option<real>)
    ensures r == AtTarget(all, target)
  {
    var prevLE, prevCount := 0.0, 0.0;
    for i := 0 to |all|
      invariant forall j | 0 <= j < i :: all[j].count as real < target
      invariant i < |all| ==> prevLE == LowerBound(all, i) && prevCount == LowerCount(all, i)
    {
      var e := all[i];
      if e.count as real >= target {
        assert Reaching(all, target) == i;
        if IsInfPlus(e.le) {
          return None;
        }
        var ms := Interpolate(prevLE, prevCount, e.le.r, e.count as real, target);
        return Some(ms);
      }
      prevLE := if e.le.Finite? then e.le.r else 0.0;
      prevCount := e.count as real;
    }
    return None;
  }

  lemma FirstIsLeast(a: seq<Entry>, buckets: map<Bound, int>, le: Bound)
    requires SortedListing(a, buckets) && le in buckets
    ensures |a| > 0 && (le == a[0].le || Below(a[0].le, le))
  {
    assert Lists(a, le);
    var i :| 0 <= i < |a| && a[i].le == le;
  }

  lemma SameFirst(a: seq<Entry>, b: seq<Entry>, buckets: map<Bound, int>)
    requires SortedListing(a, buckets) && SortedListing(b, buckets) && a != []
    ensures b != [] && a[0] == b[0]
  {
    FirstIsLeast(b, buckets, a[0].le);
    FirstIsLeast(a, buckets, b[0].le);
  }

  lemma OneLess(buckets: map<Bound, int>, le: Bound)
    requires le in buckets
    ensures |buckets - {le}| == |buckets| - 1
  {
    assert buckets.Keys == (buckets - {le}).Keys + {le};
  }

  lemma ListedAfterFirst(a: seq<Entry>, buckets: map<Bound, int>, le: Bound)
    requires SortedListing(a, buckets) && a != [] && le in buckets && le != a[0].le
    ensures Lists(a[1..], le)
  {
    assert Lists(a, le);
    var i :| 0 <= i < |a| && a[i].le == le;
    assert a[1..][i - 1].le == le;
  }

  lemma RestLists(a: seq<Entry>, buckets: map<Bound, int>)
    requires SortedListing(a, buckets) && a != []
    ensures a[0].le in buckets && SortedListing(a[1..], buckets - {a[0].le})
  {
    var rest, less := a[1..], buckets - {a[0].le};
    OneLess(buckets, a[0].le);
    forall le | le in less ensures Lists(rest, le) {
      ListedAfterFirst(a, buckets, le);
    }
    forall i | 0 <= i < |rest| ensures rest[i].le in less && rest[i].count == less[rest[i].le] {
      assert rest[i] == a[i + 1] && Below(a[0].le, a[i + 1].le);
    }
  }

  lemma SameHeadTail<T>(a: seq<T>, b: seq<T>)
    requires a != [] && b != [] && a[0] == b[0] && a[1..] == b[1..]
    ensures a == b
  {
    assert a == [a[0]] + a[1..];
  }

  lemma ListingStep(a: seq<Entry>, b: seq<Entry>, buckets: map<Bound, int>, less: map<Bound, int>)
    requires SortedListing(a, buckets) && SortedListing(b, buckets) && a != []
    requires less == buckets - {a[0].le}
    ensures b != [] && a[0] == b[0] && SortedListing(a[1..], less) && SortedListing(b[1..], less)
  {
    SameFirst(a, b, buckets);
    RestLists(a, buckets);
    RestLists(b, buckets);
  }

  // The listing does not depend on the order in which the map is walked.
  lemma {:induction false} ListingUnique(a: seq<Entry>, b: seq<Entry>, buckets: map<Bound, int>)
    requires SortedListing(a, buckets) && SortedListing(b, buckets)
    ensures a == b
    decreases |a|
  {
    if a != [] {
      var less := buckets - {a[0].le};
      ListingStep(a, b, buckets, less);
      ListingUnique(a[1..], b[1..], less);
      SameHeadTail(a, b);
    }
  }

  ghost predicate NonNegativeBounds(all: seq<Entry>) {
    forall i | 0 <= i < |all| :: all[i].le.Finite? ==> all[i].le.r >= 0.0
  }

  lemma Interpolation(lo: real, loCount: real, hi: real, hiCount: real, target: real)
    requires lo <= hi && loCount < target <= hiCount
    ensures lo * 1000.0 <= Interpolated(lo, loCount, hi, hiCount, target) <= hi * 1000.0
  {
    var span, part := hiCount - loCount, target - loCount;
    var frac := part / span;
    assert frac * span == part;
    assert 0.0 <= frac <= 1.0;
    Scaled(frac, hi - lo);
  }

  lemma Scaled(frac: real, d: real)
    requires 0.0 <= frac <= 1.0 && d >= 0.0
    ensures 0.0 <= frac * d <= d
  {
    assert (1.0 - frac) * d >= 0.0;
  }

  lemma InterpolationIsLinear(lo: real, loCount: real, hi: real, hiCount: real, target: real)
    requires hiCount > loCount
    ensures (Interpolated(lo, loCount, hi, hiCount, target) - lo * 1000.0) * (hiCount - loCount) ==
            (target - loCount) * (hi - lo) * 1000.0
  {
    var span, d := hiCount - loCount, hi - lo;
    var frac := (target - loCount) / span;
    assert frac * span == target - loCount;
    assert Interpolated(lo, loCount, hi, hiCount, target) - lo * 1000.0 == frac * d * 1000.0;
    Rearranged(frac, d, span);
  }

  lemma Rearranged(frac: real, d: real, span: real)
    ensures frac * d * 1000.0 * span == frac * span * d * 1000.0
  {
  }

  // There is no percentile exactly if no bucket reaches the target or the first
  // that does is the infinite one.
  lemma {:induction false} NoPercentileExactlyWhen(all: seq<Entry>, target: real)
    ensures AtTarget(all, target) == None <==>
            forall i | 0 <= i < |all| && all[i].count as real >= target
                       && (forall k | 0 <= k < i :: all[k].count as real < target) ::
              all[i].le.PlusInf? || all[i].le.r > Power10(308) as real
  {
    var n := Reaching(all, target);
    forall i | 0 <= i < |all| && all[i].count as real >= target
               && (forall k | 0 <= k < i :: all[k].count as real < target)
      ensures i == n
    {
    }
  }

  // A percentile lies in the first bucket that reaches the target, between its
  // bounds. The bucket's span is positive, without any assumption that the
  // counts are monotone.
  lemma {:induction false} PercentileInBucket(all: seq<Entry>, target: real, i: nat)
    requires Sorted(all) && NonNegativeBounds(all) && target > 0.0 && AtTarget(all, target).Some?
    requires i < |all| && all[i].count as real >= target && forall k | 0 <= k < i :: all[k].count as real < target
    ensures all[i].le.Finite? && (i > 0 ==> all[i - 1].le.Finite?)
    ensures all[i].count as real - (if i == 0 then 0.0 else all[i - 1].count as real) > 0.0
    ensures (if i == 0 then 0.0 else all[i - 1].le.r) * 1000.0 <= AtTarget(all, target).value <= all[i].le.r * 1000.0
  {
    assert i == Reaching(all, target);
    if i > 0 {
      assert Below(all[i - 1].le, all[i].le);
    }
    Interpolation(LowerBound(all, i), LowerCount(all, i), all[i].le.r, all[i].count as real, target);
  }

  // And there on the line from the lower bound at the count below to the upper
  // bound at the bucket's own count, in milliseconds.
  lemma {:induction false} PercentileOnLine(all: seq<Entry>, target: real, i: nat, lo: real, loCount: real, ms: real)
    requires target > 0.0 && AtTarget(all, target) == Some(ms)
    requires i < |all| && all[i].count as real >= target && forall k | 0 <= k < i :: all[k].count as real < target
    requires if i == 0 then lo == loCount == 0.0 else all[i - 1].le == Finite(lo) && all[i - 1].count as real == loCount
    ensures all[i].le.Finite?
    ensures (ms - lo * 1000.0) * (all[i].count as real - loCount) == (target - loCount) * (all[i].le.r - lo) * 1000.0
  {
    AtTargetIs(all, target, i);
    InterpolationIsLinear(lo, loCount, all[i].le.r, all[i].count as real, target);
  }

  // The first bucket that reaches the target decides.
  lemma AtTargetIs(all: seq<Entry>, target: real, i: nat)
    requires i < |all| && all[i].count as real >= target && forall k | 0 <= k < i :: all[k].count as real < target
    ensures AtTarget(all, target) ==
            if IsInfPlus(all[i].le) then None
            else Some(Interpolated(LowerBound(all, i), LowerCount(all, i), all[i].le.r, all[i].count as real, target))
  {
    assert i == Reaching(all, target);
  }

  lemma InterpolationMonotone(lo: real, loCount: real, hi: real, hiCount: real, t1: real, t2: real)
    requires lo <= hi && loCount < t1 <= t2 <= hiCount
    ensures Interpolated(lo, loCount, hi, hiCount, t1) <= Interpolated(lo, loCount, hi, hiCount, t2)
  {
    var span := hiCount - loCount;
    var f1, f2 := (t1 - loCount) / span, (t2 - loCount) / span;
    Quotients(t1 - loCount, t2 - loCount, span);
    Products(f1, f2, hi - lo);
  }

  lemma Quotients(a: real, b: real, span: real)
    requires a <= b && span > 0.0
    ensures a / span <= b / span
  {
  }

  lemma Products(f1: real, f2: real, d: real)
    requires f1 <= f2 && d >= 0.0
    ensures f1 * d <= f2 * d
  {
  }

  lemma {:induction false} ReachingMonotone(all: seq<Entry>, t1: real, t2: real)
    requires t1 <= t2
    ensures Reaching(all, t1) <= Reaching(all, t2)
  {
    if all != [] && all[0].count as real < t1 {
      ReachingMonotone(all[1..], t1, t2);
    }
  }

  lemma {:induction false} TargetMonotone(all: seq<Entry>, t1: real, t2: real)
    requires Sorted(all) && NonNegativeBounds(all) && 0.0 < t1 <= t2 && AtTarget(all, t2).Some?
    ensures AtTarget(all, t1).Some? && AtTarget(all, t1).value <= AtTarget(all, t2).value
  {
    ReachingMonotone(all, t1, t2);
    var i1, i2 := Reaching(all, t1), Reaching(all, t2);
    PercentileInBucket(all, t2, i2);
    if i1 < i2 {
      assert Below(all[i1].le, all[i2].le);
      PercentileInBucket(all, t1, i1);
      assert Below(all[i2 - 1].le, all[i2].le);
      if i1 < i2 - 1 {
        assert Below(all[i1].le, all[i2 - 1].le);
      }
    } else {
      if i1 > 0 {
        assert Below(all[i1 - 1].le, all[i1].le);
      }
      InterpolationMonotone(LowerBound(all, i1), LowerCount(all, i1), all[i1].le.r, all[i1].count as real, t1, t2);
    }
  }

  // Percentiles are monotone in p: a higher one that exists implies every lower
  // one, and is at least as large. t1 and t2 are the two targets.
  lemma PercentileMonotone(all: seq<Entry>, total: int, p1: real, p2: real, t1: real, t2: real)
    requires Sorted(all) && NonNegativeBounds(all) && total >= 5 && 0.0 < p1 <= p2
    requires t1 == total as real * p1 && t2 == total as real * p2
    requires AtTarget(all, t2).Some?
    ensures AtTarget(all, t1).Some? && AtTarget(all, t1).value <= AtTarget(all, t2).value
  {
    TargetsOrdered(total as real, p1, p2, t1, t2);
    TargetMonotone(all, t1, t2);
  }

  lemma TargetsOrdered(total: real, p1: real, p2: real, t1: real, t2: real)
    requires total > 0.0 && 0.0 < p1 <= p2 && t1 == total * p1 && t2 == total * p2
    ensures 0.0 < t1 <= t2
  {
    Products(p1, p2, total);
  }

  // The two percentiles that are posted: p50 exists whenever p95 does, and is
  // no larger.
  lemma P50BelowP95(all: seq<Entry>, total: int)
    requires Sorted(all) && NonNegativeBounds(all) && total >= 5
    requires AtTarget(all, total as real * 0.95).Some?
    ensures AtTarget(all, total as real * 0.50).Some?
    ensures AtTarget(all, total as real * 0.50).value <= AtTarget(all, total as real * 0.95).value
  {
    TargetMonotone(all, total as real * 0.50, total as real * 0.95);
  }
}
