// The load generator's latency reservoir: a ring buffer of durations whose
// report also counts failed requests.
module Latency {
  const CAP := 4096

  // ------------------------------------------------------------------- sort

  predicate Ascending(s: seq<int>) {
    forall i, k | 0 <= i < k < |s| :: s[i] <= s[k]
  }

  // All elements of s are at most x.
  predicate Below(s: seq<int>, x: int) {
    forall i | 0 <= i < |s| :: s[i] <= x
  }

  function Insert(s: seq<int>, x: int): seq<int> {
    if s == [] || s[|s| - 1] <= x then s + [x] else Insert(s[..|s| - 1], x) + [s[|s| - 1]]
  }

  lemma {:induction false} InsertBelow(s: seq<int>, x: int, top: int)
    requires Below(s, top) && x <= top
    ensures Below(Insert(s, x), top)
  {
    if s != [] && s[|s| - 1] > x {
      InsertBelow(s[..|s| - 1], x, top);
    }
  }

  lemma {:induction false} InsertAscends(s: seq<int>, x: int)
    requires Ascending(s)
    ensures Ascending(Insert(s, x))
  {
    if s != [] && s[|s| - 1] > x {
      InsertAscends(s[..|s| - 1], x);
      InsertBelow(s[..|s| - 1], x, s[|s| - 1]);
    }
  }

  lemma {:induction false} InsertAdds(s: seq<int>, x: int)
    ensures multiset(Insert(s, x)) == multiset(s) + multiset{x}
  {
    if s != [] && s[|s| - 1] > x {
      InsertAdds(s[..|s| - 1], x);
      assert s == s[..|s| - 1] + [s[|s| - 1]];
    }
  }

  function SortSteps(s: seq<int>): seq<int> {
    if s == [] then [] else Insert(SortSteps(s[..|s| - 1]), s[|s| - 1])
  }

  lemma {:induction false} SortStepsSort(s: seq<int>)
    ensures Ascending(SortSteps(s)) && multiset(SortSteps(s)) == multiset(s) && |SortSteps(s)| == |s|
  {
    if s != [] {
      SortStepsSort(s[..|s| - 1]);
      InsertAscends(SortSteps(s[..|s| - 1]), s[|s| - 1]);
      InsertAdds(SortSteps(s[..|s| - 1]), s[|s| - 1]);
      assert s == s[..|s| - 1] + [s[|s| - 1]];
    }
    assert |multiset(SortSteps(s))| == |multiset(s)|;
  }

  // What sort.Slice leaves.
  function Sort(s: seq<int>): (r: seq<int>)
    ensures Ascending(r) && multiset(r) == multiset(s) && |r| == |s|
  {
    SortStepsSort(s);
    SortSteps(s)
  }

  lemma LastIsLargest(a: seq<int>, x: int)
    requires a != [] && Ascending(a) && x in multiset(a)
    ensures x <= a[|a| - 1]
  {
  }

  lemma WithoutLast(a: seq<int>)
    requires a != []
    ensures multiset(a[..|a| - 1]) == multiset(a) - multiset{a[|a| - 1]}
  {
    assert a == a[..|a| - 1] + [a[|a| - 1]];
  }

  lemma SameLast(a: seq<int>, b: seq<int>)
    requires Ascending(a) && Ascending(b) && multiset(a) == multiset(b) && a != []
    ensures |a| == |b| && a[|a| - 1] == b[|b| - 1]
  {
    assert |a| == |multiset(a)| == |multiset(b)| == |b|;
    LastIsLargest(a, b[|b| - 1]);
    LastIsLargest(b, a[|a| - 1]);
  }

  lemma {:induction false} AscendingUnique(a: seq<int>, b: seq<int>)
    requires Ascending(a) && Ascending(b) && multiset(a) == multiset(b)
    ensures a == b
  {
    if a == [] {
      assert |multiset(b)| == 0;
    } else {
      SameLast(a, b);
      WithoutLast(a);
      WithoutLast(b);
      assert Ascending(a[..|a| - 1]) && Ascending(b[..|b| - 1]);
      AscendingUnique(a[..|a| - 1], b[..|b| - 1]);
      Rejoin(a, b);
    }
  }

  lemma Rejoin(a: seq<int>, b: seq<int>)
    requires |a| == |b| > 0 && a[..|a| - 1] == b[..|b| - 1] && a[|a| - 1] == b[|b| - 1]
    ensures a == b
  {
    assert a == a[..|a| - 1] + [a[|a| - 1]];
  }

  lemma SortPermuted(a: seq<int>, b: seq<int>)
    requires multiset(a) == multiset(b)
    ensures Sort(a) == Sort(b)
  {
    AscendingUnique(Sort(a), Sort(b));
  }

  // -------------------------------------------------------------- reservoir

  function Zeros(k: nat): (z: seq<int>)
    ensures |z| == k && forall i | 0 <= i < k :: z[i] == 0
  {
    seq(k, _ => 0)
  }

  // The array after these durations were recorded, in order.
  function Ring(ds: seq<int>): (r: seq<int>)
    ensures |r| == CAP
  {
    if ds == [] then Zeros(CAP)
    else
      var n := |ds| - 1;
      Ring(ds[..n])[n % CAP := ds[n]]
  }

  function Recent(ds: seq<int>): (r: seq<int>)
    ensures |r| == if |ds| < CAP then |ds| else CAP
  {
    if |ds| <= CAP then ds else ds[|ds| - CAP..]
  }

  // How many slots a report looks at after s durations and e errors.
  function Slots(s: nat, e: nat): nat {
    if s + e > CAP then CAP else s + e
  }

  // What a report is about: the most recent durations, and a zero for each
  // error while the ring is not full.
  function Reservoir(ds: seq<int>, e: nat): (r: seq<int>)
    ensures |r| == Slots(|ds|, e)
  {
    Recent(ds) + Zeros(Slots(|ds|, e) - |Recent(ds)|)
  }

  lemma {:induction false} RingFilling(ds: seq<int>)
    requires |ds| <= CAP
    ensures Ring(ds) == ds + Zeros(CAP - |ds|)
  {
    if ds != [] {
      var n := |ds| - 1;
      RingFilling(ds[..n]);
      assert (ds[..n] + Zeros(CAP - n))[n := ds[n]] == ds + Zeros(CAP - |ds|);
    }
  }

  function Rotated(r: seq<int>, idx: nat): seq<int>
    requires idx < |r|
  {
    r[|r| - idx..] + r[..|r| - idx]
  }

  // A full ring is its most recent durations, rotated to the write position.
  lemma {:induction false} RingFull(ds: seq<int>)
    requires |ds| >= CAP
    ensures Ring(ds) == Rotated(Recent(ds), |ds| % CAP)
  {
    if |ds| == CAP {
      RingFilling(ds);
      assert Rotated(ds, 0) == ds;
    } else {
      var n := |ds| - 1;
      RingFull(ds[..n]);
      RingStep(ds, Ring(ds[..n]));
      RecentMoves(ds);
      Turn(n);
      Rotate(Recent(ds[..n]), n % CAP, ds[n], Recent(ds), |ds| % CAP);
    }
  }

  lemma RingStep(ds: seq<int>, before: seq<int>)
    requires ds != [] && before == Ring(ds[..|ds| - 1])
    ensures Ring(ds) == before[(|ds| - 1) % CAP := ds[|ds| - 1]]
  {
  }

  lemma RecentMoves(ds: seq<int>)
    requires |ds| > CAP
    ensures Recent(ds) == Recent(ds[..|ds| - 1])[1..] + [ds[|ds| - 1]]
  {
  }

  lemma Turn(n: nat)
    ensures (n + 1) % CAP == if n % CAP == CAP - 1 then 0 else n % CAP + 1
  {
  }

  // Overwriting the oldest of a rotated ring.
  lemma Rotate(r: seq<int>, idx: nat, d: int, next: seq<int>, after: nat)
    requires |r| == CAP && idx < CAP && next == r[1..] + [d]
    requires after == if idx == CAP - 1 then 0 else idx + 1
    ensures Rotated(r, idx)[idx := d] == Rotated(next, after)
  {
  }

  // The slots that a report copies hold exactly the reservoir.
  lemma {:induction false} RingHoldsReservoir(ds: seq<int>, e: nat)
    ensures multiset(Ring(ds)[..Slots(|ds|, e)]) == multiset(Reservoir(ds, e))
  {
    var k := Slots(|ds|, e);
    if |ds| < CAP {
      RingFilling(ds);
      assert Ring(ds)[..k] == Reservoir(ds, e);
    } else {
      RingFull(ds);
      var r := Recent(ds);
      var cut := CAP - |ds| % CAP;
      assert Ring(ds)[..k] == Ring(ds);
      assert r == r[..cut] + r[cut..];
      assert Reservoir(ds, e) == r;
    }
  }

  // ----------------------------------------------------------------- report

  datatype Snapshot = Snapshot(n: nat, errors: nat, bytes: int, p50: int, p95: int, p99: int, max: int)

  function Percentile(sorted: seq<int>, p: real): int
    requires 0.0 <= p <= 1.0
  {
    if sorted == [] then 0
    else
      var i := Rank(|sorted|, p);
      sorted[i]
  }

  function Rank(n: nat, p: real): (i: nat)
    requires n > 0 && 0.0 <= p <= 1.0
    ensures i < n
  {
    var y := (n - 1) as real * p;
    ScaledBelow((n - 1) as real, p);
    FloorInside(y, n - 1);
    y.Floor
  }

  lemma FloorInside(y: real, top: nat)
    requires 0.0 <= y <= top as real
    ensures 0 <= y.Floor <= top
  {
  }

  lemma ScaledBelow(x: real, p: real)
    requires 0.0 <= x && 0.0 <= p <= 1.0
    ensures 0.0 <= x * p <= x
  {
  }

  lemma ScaledMonotone(x: real, p: real, q: real)
    requires 0.0 <= x && 0.0 <= p <= q
    ensures x * p <= x * q
  {
  }

  lemma FloorMonotone(a: real, b: real)
    requires a <= b
    ensures a.Floor <= b.Floor
  {
  }

  lemma RankMonotone(n: nat, p: real, q: real)
    requires n > 0 && 0.0 <= p <= q <= 1.0
    ensures Rank(n, p) <= Rank(n, q)
  {
    var x := (n - 1) as real;
    ScaledMonotone(x, p, q);
    FloorMonotone(x * p, x * q);
  }

  function SnapshotOf(ds: seq<int>, e: nat, bytes: int): Snapshot {
    var sorted := Sort(Reservoir(ds, e));
    Snapshot(|ds| + e, e, bytes, Percentile(sorted, 0.50), Percentile(sorted, 0.95), Percentile(sorted, 0.99),
             if sorted == [] then 0 else sorted[|sorted| - 1])
  }

  lemma {:induction false} PercentileMonotone(sorted: seq<int>, p: real, q: real)
    requires Ascending(sorted) && 0.0 <= p <= q <= 1.0
    ensures Percentile(sorted, p) <= Percentile(sorted, q)
    ensures sorted != [] ==> Percentile(sorted, q) <= sorted[|sorted| - 1]
  {
    if sorted != [] {
      RankMonotone(|sorted|, p, q);
    }
  }

  // Every report is ordered, and its maximum bounds every recent duration.
  lemma {:induction false} ReportOrdered(ds: seq<int>, e: nat, bytes: int)
    ensures var s := SnapshotOf(ds, e, bytes); s.p50 <= s.p95 <= s.p99 <= s.max
    ensures forall d | d in Recent(ds) :: d <= SnapshotOf(ds, e, bytes).max
  {
    var sorted := Sort(Reservoir(ds, e));
    PercentileMonotone(sorted, 0.50, 0.95);
    PercentileMonotone(sorted, 0.95, 0.99);
    forall d | d in Recent(ds) ensures d <= SnapshotOf(ds, e, bytes).max {
      assert d in Reservoir(ds, e);
      assert d in multiset(sorted);
    }
  }

  // ------------------------------------------------------- what a rank means

  function CountBelow(s: seq<int>, v: int): nat {
    if s == [] then 0 else CountBelow(s[..|s| - 1], v) + (if s[|s| - 1] < v then 1 else 0)
  }

  function CountUpTo(s: seq<int>, v: int): nat {
    if s == [] then 0 else CountUpTo(s[..|s| - 1], v) + (if s[|s| - 1] <= v then 1 else 0)
  }

  lemma {:induction false} CountsSplit(a: seq<int>, b: seq<int>, v: int)
    ensures CountBelow(a + b, v) == CountBelow(a, v) + CountBelow(b, v)
    ensures CountUpTo(a + b, v) == CountUpTo(a, v) + CountUpTo(b, v)
  {
    if b == [] {
      assert a + b == a;
    } else {
      assert (a + b)[..|a + b| - 1] == a + b[..|b| - 1];
      CountsSplit(a, b[..|b| - 1], v);
    }
  }

  lemma {:induction false} CountsExtreme(s: seq<int>, v: int)
    ensures CountBelow(s, v) <= |s| && CountUpTo(s, v) <= |s|
    ensures (forall i | 0 <= i < |s| :: s[i] >= v) ==> CountBelow(s, v) == 0
    ensures (forall i | 0 <= i < |s| :: s[i] <= v) ==> CountUpTo(s, v) == |s|
  {
    if s != [] {
      CountsExtreme(s[..|s| - 1], v);
    }
  }

  lemma {:induction false} CountsWithout(before: seq<int>, x: int, after: seq<int>, v: int)
    ensures CountBelow(before + [x] + after, v) == CountBelow(before + after, v) + (if x < v then 1 else 0)
    ensures CountUpTo(before + [x] + after, v) == CountUpTo(before + after, v) + (if x <= v then 1 else 0)
  {
    CountsSplit(before + [x], after, v);
    CountsSplit(before, [x], v);
    CountsSplit(before, after, v);
  }

  lemma TakeOut(init: seq<int>, x: int, b: seq<int>) returns (before: seq<int>, after: seq<int>)
    requires multiset(init + [x]) == multiset(b)
    ensures b == before + [x] + after && multiset(init) == multiset(before + after)
  {
    assert x in multiset(init + [x]);
    var i :| 0 <= i < |b| && b[i] == x;
    before, after := b[..i], b[i + 1..];
    assert b == before + [x] + after;
    assert multiset(init) == multiset(init + [x]) - multiset{x};
    assert multiset(before + after) == multiset(b) - multiset{x};
  }

  // Counting does not depend on the order.
  lemma {:induction false} CountsPermuted(a: seq<int>, b: seq<int>, v: int)
    requires multiset(a) == multiset(b)
    ensures CountBelow(a, v) == CountBelow(b, v) && CountUpTo(a, v) == CountUpTo(b, v)
    decreases |a|
  {
    if a == [] {
      assert |multiset(b)| == 0;
    } else {
      var init, x := a[..|a| - 1], a[|a| - 1];
      assert a == init + [x];
      var before, after := TakeOut(init, x, b);
      CountsPermuted(init, before + after, v);
      CountsWithout(before, x, after, v);
    }
  }

  lemma {:induction false} RankInSorted(sorted: seq<int>, i: nat)
    requires Ascending(sorted) && i < |sorted|
    ensures CountBelow(sorted, sorted[i]) <= i < CountUpTo(sorted, sorted[i])
  {
    var v := sorted[i];
    assert sorted == sorted[..i] + sorted[i..] == sorted[..i + 1] + sorted[i + 1..];
    CountsSplit(sorted[..i], sorted[i..], v);
    CountsSplit(sorted[..i + 1], sorted[i + 1..], v);
    CountsExtreme(sorted[..i], v);
    CountsExtreme(sorted[i..], v);
    CountsExtreme(sorted[..i + 1], v);
  }

  // v is the element of rank i: at most i are smaller, more than i are no larger.
  ghost predicate HasRank(s: seq<int>, i: int, v: int) {
    v in s && CountBelow(s, v) <= i < CountUpTo(s, v)
  }

  // A percentile of n samples is the one whose rank is p of the way from the
  // first to the last, rounded down.
  lemma {:induction false} PercentileHasRank(s: seq<int>, p: real, i: nat)
    requires s != [] && 0.0 <= p <= 1.0 && i as real <= (|s| - 1) as real * p < i as real + 1.0
    ensures HasRank(s, i, Percentile(Sort(s), p))
  {
    var sorted := Sort(s);
    assert Rank(|s|, p) == i;
    RankInSorted(sorted, i);
    CountsPermuted(s, sorted, sorted[i]);
    assert sorted[i] in multiset(sorted);
  }

  // What a report says: how much was counted, the samples at half, nineteen
  // twentieths and ninety-nine hundredths of the way, and the largest.
  lemma {:induction false} ReportMeaning(ds: seq<int>, e: nat, bytes: int)
    ensures var s, r := Reservoir(ds, e), SnapshotOf(ds, e, bytes);
            && r.n == |ds| + e && r.errors == e && r.bytes == bytes
            && |s| == (if |ds| + e < 4096 then |ds| + e else 4096)
            && (s == [] ==> r.p50 == r.p95 == r.p99 == r.max == 0)
            && (s != [] ==>
                  && HasRank(s, (|s| - 1) / 2, r.p50) && HasRank(s, (|s| - 1) * 19 / 20, r.p95)
                  && HasRank(s, (|s| - 1) * 99 / 100, r.p99) && HasRank(s, |s| - 1, r.max))
  {
    var s := Reservoir(ds, e);
    if s != [] {
      PercentileRanks(s);
      LargestHasRank(s);
    }
  }

  lemma {:induction false} PercentileRanks(s: seq<int>)
    requires s != []
    ensures HasRank(s, (|s| - 1) / 2, Percentile(Sort(s), 0.50))
    ensures HasRank(s, (|s| - 1) * 19 / 20, Percentile(Sort(s), 0.95))
    ensures HasRank(s, (|s| - 1) * 99 / 100, Percentile(Sort(s), 0.99))
  {
    var n := |s| - 1;
    FractionOf(n, 1, 2, 0.50);
    FractionOf(n, 19, 20, 0.95);
    FractionOf(n, 99, 100, 0.99);
    PercentileHasRank(s, 0.50, n / 2);
    PercentileHasRank(s, 0.95, n * 19 / 20);
    PercentileHasRank(s, 0.99, n * 99 / 100);
  }

  lemma {:induction false} LargestHasRank(s: seq<int>)
    requires s != []
    ensures HasRank(s, |s| - 1, Sort(s)[|s| - 1])
  {
    var n := |s| - 1;
    RankInSorted(Sort(s), n);
    CountsPermuted(s, Sort(s), Sort(s)[n]);
    assert Sort(s)[n] in multiset(Sort(s));
  }

  lemma FractionOf(n: nat, a: nat, b: nat, p: real)
    requires (a == 1 && b == 2 && p == 0.50) || (a == 19 && b == 20 && p == 0.95) || (a == 99 && b == 100 && p == 0.99)
    ensures (n * a / b) as real <= n as real * p < (n * a / b) as real + 1.0
  {
  }

  // ---------------------------------------------------------- errors as zeros

  // Errors leave the reservoir alone if and only if there are none or the ring
  // is full of durations.
  lemma ErrorsCountAsZeros(ds: seq<int>, e: nat)
    ensures multiset(Reservoir(ds, e)) == multiset(Recent(ds)) <==> e == 0 || |ds| >= 4096
  {
    if e == 0 || |ds| >= CAP {
      assert Reservoir(ds, e) == Recent(ds);
    } else {
      assert |multiset(Reservoir(ds, e))| == Slots(|ds|, e);
      assert |multiset(Recent(ds))| == |Recent(ds)|;
    }
  }

  // With positive durations a percentile is zero exactly when its rank falls
  // among the errors.
  lemma {:induction false} PercentileZeroIff(ds: seq<int>, e: nat, p: real)
    requires 0.0 <= p <= 1.0 && Slots(|ds|, e) > 0
    requires forall i | 0 <= i < |ds| :: ds[i] > 0
    ensures Percentile(Sort(Reservoir(ds, e)), p) == 0
       <==> Rank(Slots(|ds|, e), p) < Slots(|ds|, e) - |Recent(ds)|
  {
    var r, z := Recent(ds), Zeros(Slots(|ds|, e) - |Recent(ds)|);
    assert forall i | 0 <= i < |r| :: r[i] > 0;
    ZerosFirst(r, z);
    ZeroIndex(z, Sort(r), Rank(Slots(|ds|, e), p));
  }

  lemma ZeroIndex(z: seq<int>, positive: seq<int>, i: nat)
    requires i < |z| + |positive|
    requires (forall j | 0 <= j < |z| :: z[j] == 0) && forall j | 0 <= j < |positive| :: positive[j] > 0
    ensures (z + positive)[i] == 0 <==> i < |z|
  {
  }

  lemma {:induction false} ZerosFirst(r: seq<int>, z: seq<int>)
    requires forall i | 0 <= i < |r| :: r[i] > 0
    requires forall i | 0 <= i < |z| :: z[i] == 0
    ensures Sort(r + z) == z + Sort(r) && forall i | 0 <= i < |r| :: Sort(r)[i] > 0
  {
    var sorted := Sort(r);
    forall i | 0 <= i < |r| ensures sorted[i] > 0 {
      assert sorted[i] in multiset(sorted);
      assert sorted[i] in multiset(r);
    }
    assert Ascending(z + sorted);
    assert multiset(z + sorted) == multiset(r + z);
    AscendingUnique(Sort(r + z), z + sorted);
  }

  // ---------------------------------------------------------------- tracker

  // Each method is one critical section of the tracker's mutex.
  class Tracker {
    const samples: array<int>
    var n: nat
    var idx: nat
    var errors: nat
    var bytes: int
    // The durations recorded so far.
    ghost var durations: seq<int>

    ghost predicate Valid()
      reads this, samples
    {
      && samples.Length == CAP && samples[..] == Ring(durations)
      && idx == |durations| % CAP && n == |durations| + errors
    }

    constructor ()
      ensures Valid() && fresh(samples) && durations == [] && errors == 0 && bytes == 0
    {
      samples := new int[CAP](_ => 0);
      n, idx, errors, bytes, durations := 0, 0, 0, 0, [];
      new;
      assert samples[..] == Zeros(CAP);
    }

    method RecordDuration(d: int)
      requires Valid()
      modifies this`n, this`idx, this`durations, samples
      ensures Valid() && durations == old(durations) + [d]
    {
      samples[idx] := d;
      Turn(|durations|);
      idx := (idx + 1) % samples.Length;
      n := n + 1;
      durations := durations + [d];
      assert durations[..|durations| - 1] == old(durations);
    }

    method RecordError()
      requires Valid()
      modifies this`n, this`errors
      ensures Valid() && errors == old(errors) + 1
    {
      errors := errors + 1;
      n := n + 1;
    }

    method RecordBytes(b: int)
      requires Valid()
      modifies this`bytes
      ensures Valid() && bytes == old(bytes) + b
    {
      bytes := bytes + b;
    }

    method Report() returns (r: Snapshot)
      requires Valid()
      ensures r == SnapshotOf(durations, errors, bytes)
    {
      var k := n;
      if k > samples.Length {
        k := samples.Length;
      }
      var cp := Sort(samples[..k]);
      RingHoldsReservoir(durations, errors);
      assert samples[..k] == samples[..][..k];
      SortPermuted(samples[..k], Reservoir(durations, errors));
      var maxD := 0;
      if |cp| > 0 {
        maxD := cp[|cp| - 1];
      }
      r := Snapshot(n, errors, bytes, Percentile(cp, 0.50), Percentile(cp, 0.95), Percentile(cp, 0.99), maxD);
    }
  }
}
