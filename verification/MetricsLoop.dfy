// The scrape loop: per-interval deltas of the counters, from one successful
// scrape to the next.
module MetricsLoop {
  import opened Wrappers
  import opened PromMetrics

  datatype Scrape = ScrapeFailed | Scraped(snap: Snapshot)

  // The counters that a post carries.
  datatype Counter = Requests | NoError | NxDomain | ServFail

  function Reading(s: Snapshot, c: Counter): int {
    match c
    case Requests => s.requests
    case NoError => s.noError
    case NxDomain => s.nxDomain
    case ServFail => s.servFail
  }

  datatype Post = Post(queries: int, noError: int, nxDomain: int, servFail: int)

  function Delta(p: Post, c: Counter): int {
    match c
    case Requests => p.queries
    case NoError => p.noError
    case NxDomain => p.nxDomain
    case ServFail => p.servFail
  }

  function ClampPos(d: int): (r: int)
    ensures r >= 0 && r >= d && (r == d || r == 0)
  {
    if d < 0 then 0 else d
  }

  function PostOf(prev: Snapshot, snap: Snapshot): Post {
    Post(ClampPos(snap.requests - prev.requests), ClampPos(snap.noError - prev.noError),
         ClampPos(snap.nxDomain - prev.nxDomain), ClampPos(snap.servFail - prev.servFail))
  }

  // The baseline after a run: the last scrape, unless it failed.
  function Baseline(run: seq<Scrape>): Option<Snapshot> {
    if run == [] || run[|run| - 1].ScrapeFailed? then None else Some(run[|run| - 1].snap)
  }

  // Everything posted during a run.
  function Posts(run: seq<Scrape>): seq<Post> {
    if run == [] then []
    else
      var init, last := run[..|run| - 1], run[|run| - 1];
      Posts(init) + (if last.Scraped? && Baseline(init).Some? then [PostOf(Baseline(init).value, last.snap)] else [])
  }

  method Run(run: seq<Scrape>) returns (posts: seq<Post>)
    ensures posts == Posts(run)
  {
    var prev: Option<Snapshot> := None;
    posts := [];
    for i := 0 to |run|
      invariant posts == Posts(run[..i]) && prev == Baseline(run[..i])
    {
      assert run[..i + 1][..i] == run[..i];
      match run[i]
      case ScrapeFailed =>
        prev := None;
      case Scraped(snap) =>
        if prev.None? {
          prev := Some(snap);
        } else {
          posts := posts + [PostOf(prev.value, snap)];
          prev := Some(snap);
        }
    }
    assert run[..|run|] == run;
  }

  // How many pairs of successive successful scrapes a run has.
  function Pairs(run: seq<Scrape>): nat {
    if |run| < 2 then 0
    else
      Pairs(run[..|run| - 1]) + (if run[|run| - 1].Scraped? && run[|run| - 2].Scraped? then 1 else 0)
  }

  // Each such pair has its post, in order and field by field, and nothing else
  // is posted.
  lemma {:induction false} PostsAreThePairs(run: seq<Scrape>, k: nat)
    ensures |Posts(run)| == Pairs(run)
    ensures k + 1 < |run| && run[k].Scraped? && run[k + 1].Scraped? ==>
              var a, b := run[k].snap, run[k + 1].snap;
              && Pairs(run[..k + 1]) < |Posts(run)|
              && var p := Posts(run)[Pairs(run[..k + 1])];
              && p.queries == (if b.requests > a.requests then b.requests - a.requests else 0)
              && p.noError == (if b.noError > a.noError then b.noError - a.noError else 0)
              && p.nxDomain == (if b.nxDomain > a.nxDomain then b.nxDomain - a.nxDomain else 0)
              && p.servFail == (if b.servFail > a.servFail then b.servFail - a.servFail else 0)
  {
    if |run| >= 2 {
      var init := run[..|run| - 1];
      PostsAreThePairs(init, k);
      if k + 1 < |init| {
        assert init[..k + 1] == run[..k + 1];
      } else if k + 1 == |init| {
        assert run[..k + 1] == init;
      }
    }
  }

  function Total(posts: seq<Post>, c: Counter): int {
    if posts == [] then 0 else Total(posts[..|posts| - 1], c) + Delta(posts[|posts| - 1], c)
  }

  ghost predicate FailureFree(run: seq<Scrape>) {
    forall i | 0 <= i < |run| :: run[i].Scraped?
  }

  // The counter never went backwards in the stretch.
  ghost predicate NonDecreasing(run: seq<Scrape>, c: Counter)
    requires FailureFree(run)
  {
    forall i | 0 <= i < |run| - 1 :: StepUp(run, i, c)
  }

  ghost predicate StepUp(run: seq<Scrape>, i: nat, c: Counter)
    requires FailureFree(run) && i + 1 < |run|
  {
    Reading(run[i].snap, c) <= Reading(run[i + 1].snap, c)
  }

  lemma TotalSnoc(posts: seq<Post>, p: Post, c: Counter)
    ensures Total(posts + [p], c) == Total(posts, c) + Delta(p, c)
  {
    assert (posts + [p])[..|posts|] == posts;
  }

  lemma DeltaOf(prev: Snapshot, snap: Snapshot, c: Counter)
    ensures Delta(PostOf(prev, snap), c) == ClampPos(Reading(snap, c) - Reading(prev, c))
  {
  }

  function Growth(run: seq<Scrape>, c: Counter): int
    requires |run| > 0 && run[0].Scraped? && run[|run| - 1].Scraped?
  {
    Reading(run[|run| - 1].snap, c) - Reading(run[0].snap, c)
  }

  // Over a failure-free stretch the deltas add up to at least the growth of the
  // counter, and to exactly that if and only if it never went backwards.
  lemma {:induction false} StretchConserves(run: seq<Scrape>, c: Counter)
    requires |run| > 0 && FailureFree(run)
    ensures Total(Posts(run), c) >= Growth(run, c)
    ensures Total(Posts(run), c) == Growth(run, c) <==> NonDecreasing(run, c)
  {
    if |run| > 1 {
      var init, n := run[..|run| - 1], |run| - 1;
      var before, now := init[n - 1].snap, run[n].snap;
      StretchConserves(init, c);
      assert Posts(run) == Posts(init) + [PostOf(before, now)];
      TotalSnoc(Posts(init), PostOf(before, now), c);
      DeltaOf(before, now, c);
      NonDecreasingSnoc(run, c);
    }
  }

  lemma NonDecreasingSnoc(run: seq<Scrape>, c: Counter)
    requires |run| > 1 && FailureFree(run)
    ensures var n := |run| - 1;
            NonDecreasing(run, c) <==> NonDecreasing(run[..n], c) && StepUp(run, n - 1, c)
  {
    var n := |run| - 1;
    if NonDecreasing(run, c) {
      forall i | 0 <= i < n - 1 ensures StepUp(run[..n], i, c) {
        assert StepUp(run, i, c);
      }
    }
    if NonDecreasing(run[..n], c) && StepUp(run, n - 1, c) {
      forall i | 0 <= i < n ensures StepUp(run, i, c) {
        if i < n - 1 {
          assert StepUp(run[..n], i, c);
        }
      }
    }
  }

  // No delta is ever negative, under resets and failures alike.
  lemma {:induction false} DeltasNonNegative(run: seq<Scrape>, c: Counter)
    ensures forall i | 0 <= i < |Posts(run)| :: Delta(Posts(run)[i], c) >= 0
  {
    if run != [] {
      DeltasNonNegative(run[..|run| - 1], c);
    }
  }

  lemma PostsSnoc(run: seq<Scrape>, init: seq<Scrape>, last: Scrape)
    requires run == init + [last]
    ensures Posts(run) == Posts(init) +
            (if last.Scraped? && Baseline(init).Some? then [PostOf(Baseline(init).value, last.snap)] else [])
  {
    assert run[..|run| - 1] == init;
  }

  // A failed scrape cuts the run: what is posted after it does not depend on
  // anything before it.
  lemma {:induction false} FailureSeparates(a: seq<Scrape>, b: seq<Scrape>)
    ensures Posts(a + [ScrapeFailed] + b) == Posts(a) + Posts(b)
    ensures b != [] ==> Baseline(a + [ScrapeFailed] + b) == Baseline(b)
  {
    var failed := a + [ScrapeFailed];
    if b == [] {
      assert failed + b == failed;
      PostsSnoc(failed, a, ScrapeFailed);
    } else {
      var init, last := b[..|b| - 1], b[|b| - 1];
      FailureSeparates(a, init);
      assert b == init + [last];
      Reassociate(failed, init, [last]);
      PostsSnoc(failed + b, failed + init, last);
      PostsSnoc(b, init, last);
      assert Baseline(failed + init) == Baseline(init);
      Reassociate(Posts(a), Posts(init),
                  if last.Scraped? && Baseline(init).Some? then [PostOf(Baseline(init).value, last.snap)] else []);
    }
  }

  // The readings of the successful scrapes, in order.
  function Readings(run: seq<Scrape>, c: Counter): seq<int> {
    if run == [] then []
    else Readings(run[..|run| - 1], c) +
         (if run[|run| - 1].Scraped? then [Reading(run[|run| - 1].snap, c)] else [])
  }

  ghost predicate Ascending(xs: seq<int>) {
    forall i, j | 0 <= i < j < |xs| :: xs[i] <= xs[j]
  }

  ghost predicate WithinGrowth(total: int, xs: seq<int>) {
    xs != [] ==> 0 <= total <= xs[|xs| - 1] - xs[0]
  }

  lemma GrowthSnoc(total: int, xs: seq<int>, x: int, delta: int)
    requires Ascending(xs + [x]) && WithinGrowth(total, xs)
    requires if xs == [] then total + delta == 0 else delta == 0 || delta == x - xs[|xs| - 1]
    ensures Ascending(xs) && WithinGrowth(total + delta, xs + [x])
  {
    var ys := xs + [x];
    assert forall i | 0 <= i < |xs| :: xs[i] == ys[i];
    assert ys[|xs|] == x;
    if xs != [] {
      assert ys[|xs| - 1] <= ys[|xs|];
    }
  }

  // Whatever scrapes fail, the deltas of a counter that never goes backwards
  // stay within its growth over the whole run.
  lemma {:induction false} NeverMoreThanGrowth(run: seq<Scrape>, c: Counter)
    requires Ascending(Readings(run, c))
    ensures WithinGrowth(Total(Posts(run), c), Readings(run, c))
    ensures Baseline(run).Some? ==>
              Readings(run, c) != [] && Reading(Baseline(run).value, c) == Readings(run, c)[|Readings(run, c)| - 1]
  {
    if run != [] {
      var init, last := run[..|run| - 1], run[|run| - 1];
      assert run == init + [last];
      PostsSnoc(run, init, last);
      var xs := Readings(init, c);
      if last.Scraped? {
        assert Ascending(xs + [Reading(last.snap, c)]);
        AscendingInit(xs, Reading(last.snap, c));
        NeverMoreThanGrowth(init, c);
        GrowthStep(init, last.snap, c);
      } else {
        assert Readings(run, c) == xs + [] == xs && Posts(run) == Posts(init) + [] == Posts(init);
        NeverMoreThanGrowth(init, c);
      }
    }
  }

  lemma AscendingInit(xs: seq<int>, x: int)
    requires Ascending(xs + [x])
    ensures Ascending(xs)
  {
    assert forall i | 0 <= i < |xs| :: xs[i] == (xs + [x])[i];
  }

  lemma {:induction false} GrowthStep(init: seq<Scrape>, snap: Snapshot, c: Counter)
    requires Ascending(Readings(init, c) + [Reading(snap, c)])
    requires WithinGrowth(Total(Posts(init), c), Readings(init, c))
    requires Baseline(init).Some? ==>
               Readings(init, c) != []
               && Reading(Baseline(init).value, c) == Readings(init, c)[|Readings(init, c)| - 1]
    ensures var more := if Baseline(init).Some? then [PostOf(Baseline(init).value, snap)] else [];
            WithinGrowth(Total(Posts(init) + more, c), Readings(init, c) + [Reading(snap, c)])
  {
    var xs, x := Readings(init, c), Reading(snap, c);
    if Baseline(init).Some? {
      var p := PostOf(Baseline(init).value, snap);
      TotalSnoc(Posts(init), p, c);
      DeltaOf(Baseline(init).value, snap, c);
      assert (xs + [x])[|xs| - 1] <= (xs + [x])[|xs|];
      GrowthSnoc(Total(Posts(init), c), xs, x, Delta(p, c));
    } else {
      assert Posts(init) + [] == Posts(init);
      if xs == [] {
        NoReadingsNoPosts(init, c);
      }
      GrowthSnoc(Total(Posts(init), c), xs, x, 0);
    }
  }

  lemma {:induction false} NoReadingsNoPosts(run: seq<Scrape>, c: Counter)
    requires Readings(run, c) == []
    ensures Posts(run) == [] && Baseline(run) == None
  {
    if run != [] {
      NoReadingsNoPosts(run[..|run| - 1], c);
    }
  }
}
