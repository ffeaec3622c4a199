// badger's forward loop: drain, POST, acknowledge, and the back-off between
// attempts. One `Cycle` is what the world does to one turn of the loop.
module Forwarder {
  import opened Wrappers
  import opened Samples
  import opened SampleBuffer
  import opened Heron

  // ---------------------------------------------------------------- backoff

  // Durations are nanoseconds.
  const SECOND: int := 1_000_000_000
  const MAX_RETRY_WAIT: int := 30 * SECOND
  const BATCH_SIZE := 500

  function Doubled(cur: int): int {
    if cur * 2 > MAX_RETRY_WAIT then MAX_RETRY_WAIT else cur * 2
  }

  // The argument of rand.Int63n, which panics unless it is positive:
  // two fifths of the doubled wait, truncated.
  function JitterRange(cur: int): int {
    Doubled(cur) * 2 / 5
  }

  // `pick` stands for the random source; the remainder is what Int63n returns.
  function NextBackoff(cur: int, pick: nat): int
    requires JitterRange(cur) > 0
  {
    Doubled(cur) - Doubled(cur) / 5 + pick % JitterRange(cur)
  }

  predicate BackoffInRange(backoff: int) {
    SECOND <= backoff < 36 * SECOND
  }

  const BAND: real := 24.0 * SECOND as real

  // The least wait that n retries in a row can leave: at least 1.6 times as
  // much after each, up to the band that the cap leaves.
  function LeastWait(n: nat): (w: real)
    ensures w <= BAND
  {
    if n == 0 then SECOND as real
    else if LeastWait(n - 1) * 1.6 > BAND then BAND
    else LeastWait(n - 1) * 1.6
  }

  ghost predicate RetriedAtLeast(backoff: int, n: nat) {
    backoff as real >= LeastWait(n)
  }

  lemma {:induction false} OneMoreRetry(cur: int, pick: nat, n: nat)
    requires BackoffInRange(cur) && RetriedAtLeast(cur, n)
    ensures JitterRange(cur) > 0
    ensures BackoffInRange(NextBackoff(cur, pick))
    ensures RetriedAtLeast(NextBackoff(cur, pick), n + 1)
  {
    assert 5 * NextBackoff(cur, pick) >= 4 * Doubled(cur);
  }

  // The most that n retries in a row can leave.
  function MostWait(n: nat): real {
    if n == 0 then SECOND as real
    else if MostWait(n - 1) * 2.4 > 36.0 * SECOND as real then 36.0 * SECOND as real
    else MostWait(n - 1) * 2.4
  }

  lemma {:induction false} OneMoreRetryAtMost(cur: int, pick: nat, n: nat)
    requires JitterRange(cur) > 0 && cur as real <= MostWait(n)
    ensures NextBackoff(cur, pick) as real <= MostWait(n + 1)
  {
    var d := Doubled(cur);
    assert pick % JitterRange(cur) <= d * 2 / 5 - 1;
    assert 5 * NextBackoff(cur, pick) <= 6 * d;
    assert d as real <= 2.0 * MostWait(n) && d <= 30 * SECOND;
  }

  lemma Picks(range: int, x: int)
    requires range > 0
    ensures (exists pick: nat :: pick % range == x) <==> 0 <= x < range
  {
    if 0 <= x < range {
      var pick: nat := x;
      assert pick % range == x;
    }
  }

  // The waits that can follow are those within a fifth of the doubled and capped
  // one, and all of them.
  lemma {:induction false} NextWaits(cur: int, w: int)
    requires BackoffInRange(cur)
    ensures var d := if cur <= 15_000_000_000 then 2 * cur else 30_000_000_000;
            && JitterRange(cur) > 0
            && ((exists pick :: NextBackoff(cur, pick) == w) <==> d - d / 5 <= w < d - d / 5 + 2 * d / 5)
  {
    var d, range := Doubled(cur), JitterRange(cur);
    Picks(range, w - (d - d / 5));
    if pick: nat :| pick % range == w - (d - d / 5) {
      assert NextBackoff(cur, pick) == w;
    }
    forall pick: nat | NextBackoff(cur, pick) == w ensures pick % range == w - (d - d / 5) {
    }
  }

  // ------------------------------------------------------------------ batch

  datatype Reply = NoReply | Status(code: int)

  // (ack ids, retryable, error) of one POST.
  datatype Outcome = Delivered(ids: seq<int>) | Retryable | Refused

  // The samples worth sending: a row that failed to decode has no asset id.
  function Readable(rows: seq<Row>): seq<Sample> {
    if rows == [] then []
    else (if rows[0].sample.asset == "" then [] else [rows[0].sample]) + Readable(rows[1..])
  }

  function RowIds(rows: seq<Row>): (r: seq<int>)
    ensures |r| == |rows|
  {
    seq(|rows|, i requires 0 <= i < |rows| => rows[i].id)
  }

  function AttemptId(processId: string, attempt: string): string
    requires |attempt| >= 8
  {
    processId + "-" + attempt[..8]
  }

  // Two attempts get one id exactly if they are of one process and agree in
  // their first eight characters.
  lemma {:induction false} AttemptIdsDiffer(p: string, q: string, a: string, b: string)
    requires |p| == |q| && |a| >= 8 && |b| >= 8
    ensures AttemptId(p, a) == AttemptId(q, b) <==> p == q && a[..8] == b[..8]
  {
    var x, y := AttemptId(p, a), AttemptId(q, b);
    assert x[..|p|] == p && y[..|q|] == q;
    assert x[|p| + 1..] == a[..8] && y[|q| + 1..] == b[..8];
  }

  function BatchFor(rows: seq<Row>, site: string, collector: string, id: string): Batch {
    Batch(id, site, collector, Readable(rows))
  }

  predicate Marshals(samples: seq<Sample>) {
    forall s | s in samples :: Encodable(s)
  }

  function Judge(rows: seq<Row>, reply: Reply): Outcome {
    match reply
    case NoReply => Retryable
    case Status(code) =>
      if 200 <= code < 300 then Delivered(RowIds(rows))
      else if code >= 500 then Retryable
      else Refused
  }

  function HeadSample(r: Row): seq<Sample> {
    if r.sample.asset == "" then [] else [r.sample]
  }

  lemma ReadableHead(rows: seq<Row>, head: Row, tail: seq<Row>)
    requires rows == [head] + tail
    ensures Readable(rows) == HeadSample(head) + Readable(tail)
  {
    assert rows[1..] == tail;
  }

  lemma {:induction false} ReadableAppend(a: seq<Row>, b: seq<Row>)
    ensures Readable(a + b) == Readable(a) + Readable(b)
    ensures |Readable(a)| <= |a|
  {
    if a == [] {
      assert a + b == b;
    } else {
      var head, tail := a[0], a[1..];
      ReadableAppend(tail, b);
      assert a == [head] + tail;
      Reassociate([head], tail, b);
      ReadableHead(a + b, head, tail + b);
      ReadableHead(a, head, tail);
      Reassociate(HeadSample(head), Readable(tail), Readable(b));
    }
  }

  lemma {:induction false} ReadableContents(rows: seq<Row>, s: Sample)
    ensures s in Readable(rows) <==> s.asset != "" && exists i | 0 <= i < |rows| :: rows[i].sample == s
  {
    if rows != [] {
      ReadableContents(rows[1..], s);
      if s in Readable(rows[1..]) {
        var i :| 0 <= i < |rows| - 1 && rows[1..][i].sample == s;
        assert rows[i + 1].sample == s;
      }
      if exists i | 0 <= i < |rows| :: rows[i].sample == s {
        var i :| 0 <= i < |rows| && rows[i].sample == s;
        if i > 0 {
          assert rows[1..][i - 1].sample == s;
        }
      }
    }
  }

  // A batch of a drained window passes heron's size and id-length checks. Past
  // those only authorization can refuse it, or heron's decoder, when an asset id
  // is no UUID or a timestamp no RFC 3339 time.
  ghost predicate Acceptable(b: Batch) {
    Refusal(Request(true, true, Some(b))) == None
  }

  lemma {:induction false} WindowIsAcceptable(rows: seq<Row>, site: string, collector: string, id: string)
    requires |rows| <= BATCH_SIZE && |id| == 45 && Readable(rows) != []
    ensures Acceptable(BatchFor(rows, site, collector, id))
  {
    ReadableAppend(rows, []);
    assert rows + [] == rows;
  }

  // ------------------------------------------------------------------- loop

  // UUID strings are 36 characters long.
  datatype Cycle = Cycle(read: ReadFault, processId: string, attempt: string, reply: Reply, ack: TxFault, pick: nat)

  predicate ValidCycle(c: Cycle) {
    |c.processId| == 36 && |c.attempt| == 36
  }

  // The loop's state between turns, with what it has posted and what was
  // answered 2xx so far.
  datatype Loop = Loop(rows: seq<Stored>, backoff: int, batchId: string, posted: seq<Batch>, answered: seq<Batch>)

  function Window(rows: seq<Stored>): (w: seq<Row>)
    ensures |w| <= BATCH_SIZE
  {
    Opened(rows[..Min(BATCH_SIZE, |rows|)])
  }

  function DrainOk(rows: seq<Stored>, fault: ReadFault): bool {
    !fault.QueryFails? && !fault.IterationFails? && !(fault.ScanFails? && fault.at < Min(BATCH_SIZE, |rows|))
  }

  function AckOk(n: nat, fault: TxFault): bool {
    n == 0 || fault == NoTxFault || (fault.ExecFails? && fault.at >= n)
  }

  // One turn of the loop as a function of the state before it.
  function Turn(l: Loop, site: string, collector: string, c: Cycle): Loop
    requires JitterRange(l.backoff) > 0 && ValidCycle(c)
  {
    if !DrainOk(l.rows, c.read) then l
    else if l.rows == [] then l.(backoff := SECOND)
    else
      var w := Window(l.rows);
      var processId := if l.batchId == "" then c.processId else l.batchId;
      var b := BatchFor(w, site, collector, AttemptId(processId, c.attempt));
      var rest := if AckOk(|w|, c.ack) then Without(l.rows, IdSet(RowIds(w))) else l.rows;
      if b.samples == [] then l.(rows := rest, backoff := SECOND, batchId := processId)
      else if !Marshals(b.samples) then l.(batchId := processId)
      else
        var tried := l.(batchId := processId, posted := l.posted + [b]);
        match Judge(w, c.reply)
        case Delivered(_) => tried.(rows := rest, backoff := SECOND, answered := l.answered + [b])
        case Retryable => tried.(backoff := NextBackoff(l.backoff, c.pick))
        case Refused => tried
  }

  // The server answers 2xx.
  predicate Is2xx(reply: Reply) {
    reply.Status? && 200 <= reply.code < 300
  }

  // The turn POSTs a batch.
  predicate Sends(rows: seq<Stored>, c: Cycle) {
    DrainOk(rows, c.read) && rows != [] && Readable(Window(rows)) != [] && Marshals(Readable(Window(rows)))
  }

  // The turn deletes the rows it drained.
  predicate Removes(rows: seq<Stored>, c: Cycle) {
    && DrainOk(rows, c.read) && rows != [] && AckOk(|Window(rows)|, c.ack)
    && (Readable(Window(rows)) == [] || (Marshals(Readable(Window(rows))) && Is2xx(c.reply)))
  }

  function TurnBatch(l: Loop, site: string, collector: string, c: Cycle): Batch
    requires ValidCycle(c)
  {
    BatchFor(Window(l.rows), site, collector, AttemptId(if l.batchId == "" then c.processId else l.batchId, c.attempt))
  }

  lemma TurnPosts(l: Loop, site: string, collector: string, c: Cycle)
    requires JitterRange(l.backoff) > 0 && ValidCycle(c)
    ensures var l', sent := Turn(l, site, collector, c), [TurnBatch(l, site, collector, c)];
            && l'.posted == l.posted + (if Sends(l.rows, c) then sent else [])
            && l'.answered == l.answered + (if Sends(l.rows, c) && Is2xx(c.reply) then sent else [])
            && (l'.batchId == l.batchId || (l.batchId == "" && l'.batchId == c.processId))
            && (Sends(l.rows, c) ==> l'.batchId == if l.batchId == "" then c.processId else l.batchId)
  {
  }

  lemma {:induction false} WindowWithout(rows: seq<Stored>)
    requires Ascending(rows)
    ensures Without(rows, IdSet(RowIds(Window(rows)))) == rows[Min(BATCH_SIZE, |rows|)..]
  {
    var n := Min(BATCH_SIZE, |rows|);
    assert RowIds(Window(rows)) == Ids(rows[..n]);
    AckRemovesExactlyThePrefix(rows, n);
  }

  // A turn deletes its window or nothing.
  lemma TurnRows(l: Loop, site: string, collector: string, c: Cycle)
    requires JitterRange(l.backoff) > 0 && ValidCycle(c) && Ascending(l.rows)
    ensures Turn(l, site, collector, c).rows ==
            if Removes(l.rows, c) then l.rows[Min(BATCH_SIZE, |l.rows|)..] else l.rows
  {
    WindowWithout(l.rows);
  }

  lemma {:induction false} TurnKeepsBackoff(l: Loop, site: string, collector: string, c: Cycle)
    requires BackoffInRange(l.backoff) && ValidCycle(c)
    ensures JitterRange(l.backoff) > 0
    ensures BackoffInRange(Turn(l, site, collector, c).backoff)
  {
    OneMoreRetry(l.backoff, c.pick, 0);
  }

  // The loop after a whole script. Its random range is positive at every turn.
  function After(l: Loop, site: string, collector: string, script: seq<Cycle>): (r: Loop)
    requires BackoffInRange(l.backoff) && forall c | c in script :: ValidCycle(c)
    ensures BackoffInRange(r.backoff)
  {
    if script == [] then l
    else
      var before := After(l, site, collector, script[..|script| - 1]);
      TurnKeepsBackoff(before, site, collector, script[|script| - 1]);
      Turn(before, site, collector, script[|script| - 1])
  }

  // How many of the rows `before` a later table `after` no longer holds.
  function Removed(before: seq<Stored>, after: seq<Stored>): int {
    |before| - |after|
  }

  // `after` is `before` without a prefix, and each row of that prefix was
  // unreadable or travelled in an answered batch.
  ghost predicate OnlyAnsweredRemoved(before: seq<Stored>, after: seq<Stored>, answered: seq<Batch>) {
    && 0 <= Removed(before, after)
    && after == before[Removed(before, after)..]
    && forall i | 0 <= i < Removed(before, after) :: Settled(before[i], answered)
  }

  ghost predicate Settled(r: Stored, answered: seq<Batch>) {
    || r.payload.Garbage? || r.payload.sample.asset == ""
    || exists b :: b in answered && r.payload.sample in b.samples
  }

  // Every row of an answered window is settled.
  lemma {:induction false} WindowSettled(rows: seq<Stored>, answered: seq<Batch>, i: nat)
    requires i < Min(BATCH_SIZE, |rows|)
    requires Readable(Window(rows)) == [] || exists b :: b in answered && b.samples == Readable(Window(rows))
    ensures Settled(rows[i], answered)
  {
    var w := Window(rows);
    assert w[i].sample == Decode(rows[i].payload);
    ReadableContents(w, w[i].sample);
  }

  lemma {:induction false} TurnRemovesOnlyAnswered(l: Loop, site: string, collector: string, c: Cycle)
    requires JitterRange(l.backoff) > 0 && ValidCycle(c) && Ascending(l.rows)
    ensures var l' := Turn(l, site, collector, c);
            l.answered <= l'.answered && OnlyAnsweredRemoved(l.rows, l'.rows, l'.answered)
  {
    TurnRows(l, site, collector, c);
    TurnPosts(l, site, collector, c);
    if Removes(l.rows, c) {
      var answered := Turn(l, site, collector, c).answered;
      if Readable(Window(l.rows)) != [] {
        assert answered[|l.answered|].samples == Readable(Window(l.rows));
      }
      forall i | 0 <= i < Min(BATCH_SIZE, |l.rows|) ensures Settled(l.rows[i], answered) {
        WindowSettled(l.rows, answered, i);
      }
    }
  }

  lemma RemovalsCompose(r0: seq<Stored>, r1: seq<Stored>, r2: seq<Stored>, a1: seq<Batch>, a2: seq<Batch>)
    requires OnlyAnsweredRemoved(r0, r1, a1) && OnlyAnsweredRemoved(r1, r2, a2) && a1 <= a2
    ensures OnlyAnsweredRemoved(r0, r2, a2)
  {
    var k1 := Removed(r0, r1);
    forall i | 0 <= i < Removed(r0, r2) ensures Settled(r0[i], a2) {
      if i < k1 {
        assert Settled(r0[i], a1);
      } else {
        assert r0[i] == r1[i - k1];
      }
    }
  }

  // A run removes a prefix of the buffer, and every removed row was unreadable
  // or travelled in a batch that was answered 2xx.
  lemma {:induction false} RunRemovesOnlyAnswered(l: Loop, site: string, collector: string, script: seq<Cycle>)
    requires BackoffInRange(l.backoff) && forall c | c in script :: ValidCycle(c)
    requires Ascending(l.rows)
    ensures var after := After(l, site, collector, script); OnlyAnsweredRemoved(l.rows, after.rows, after.answered)
  {
    if script != [] {
      var init, c := script[..|script| - 1], script[|script| - 1];
      RunRemovesOnlyAnswered(l, site, collector, init);
      var before, after := After(l, site, collector, init), After(l, site, collector, script);
      TurnKeepsBackoff(before, site, collector, c);
      TurnRemovesOnlyAnswered(before, site, collector, c);
      RemovalsCompose(l.rows, before.rows, after.rows, before.answered, after.answered);
    }
  }

  // Every batch posted in a run passes heron's checks.
  lemma {:induction false} PostedBatchIsAcceptable(l: Loop, site: string, collector: string, script: seq<Cycle>, i: nat)
    requires BackoffInRange(l.backoff) && forall c | c in script :: ValidCycle(c)
    requires l.batchId == "" || |l.batchId| == 36
    ensures var after := After(l, site, collector, script);
            && l.posted <= after.posted && (after.batchId == "" || |after.batchId| == 36)
            && (|l.posted| <= i < |after.posted| ==> Acceptable(after.posted[i]))
  {
    if script != [] {
      var init, c := script[..|script| - 1], script[|script| - 1];
      PostedBatchIsAcceptable(l, site, collector, init, i);
      var before := After(l, site, collector, init);
      TurnKeepsBackoff(before, site, collector, c);
      TurnPosts(before, site, collector, c);
      if Sends(before.rows, c) {
        WindowIsAcceptable(Window(before.rows), site, collector,
                           AttemptId(if before.batchId == "" then c.processId else before.batchId, c.attempt));
      }
    }
  }

  // -------------------------------------------------------------- batch ids

  // Turn k of the script POSTs a batch.
  ghost predicate SendsAt(l: Loop, site: string, collector: string, script: seq<Cycle>, k: int)
    requires BackoffInRange(l.backoff) && forall c | c in script :: ValidCycle(c)
  {
    0 <= k < |script| && ValidCycle(script[k]) && Sends(After(l, site, collector, script[..k]).rows, script[k])
  }

  // The batch of turn k is number i among those posted: the readable rows of
  // the window at that turn, under the process's id and the turn's own suffix.
  ghost predicate IsPostOf(l: Loop, site: string, collector: string, script: seq<Cycle>, i: int, k: int)
    requires BackoffInRange(l.backoff) && forall c | c in script :: ValidCycle(c)
  {
    && SendsAt(l, site, collector, script, k)
    && i == |After(l, site, collector, script[..k]).posted|
    && 0 <= i < |After(l, site, collector, script).posted|
    && var after := After(l, site, collector, script); var rows := After(l, site, collector, script[..k]).rows;
    && (l.batchId != "" ==> after.batchId == l.batchId) && |after.batchId| == 36
    && after.posted[i] == Batch(after.batchId + "-" + script[k].attempt[..8], site, collector, Readable(Window(rows)))
    && forall x | x in after.posted[i].samples :: x.value.Finite?
  }

  ghost predicate GoodProcess(l: Loop) {
    l.batchId == "" || |l.batchId| == 36
  }

  // Once drawn the process id stays, and so does what was posted.
  lemma {:induction false} RunKeepsPosts(l: Loop, site: string, collector: string, script: seq<Cycle>)
    requires BackoffInRange(l.backoff) && (forall c | c in script :: ValidCycle(c)) && GoodProcess(l)
    ensures var after := After(l, site, collector, script);
            l.posted <= after.posted && GoodProcess(after) && (l.batchId != "" ==> after.batchId == l.batchId)
  {
    if script != [] {
      var init, c := script[..|script| - 1], script[|script| - 1];
      RunKeepsPosts(l, site, collector, init);
      TurnKeepsBackoff(After(l, site, collector, init), site, collector, c);
      TurnPosts(After(l, site, collector, init), site, collector, c);
    }
  }

  // The turn that is last in the script, if it sends.
  lemma {:induction false} LastPost(l: Loop, site: string, collector: string, script: seq<Cycle>)
    requires BackoffInRange(l.backoff) && (forall c | c in script :: ValidCycle(c)) && GoodProcess(l)
    requires SendsAt(l, site, collector, script, |script| - 1)
    ensures var n := |script| - 1;
            IsPostOf(l, site, collector, script, |After(l, site, collector, script[..n]).posted|, n)
  {
    var init, c := script[..|script| - 1], script[|script| - 1];
    var before := After(l, site, collector, init);
    RunKeepsPosts(l, site, collector, init);
    TurnKeepsBackoff(before, site, collector, c);
    TurnPosts(before, site, collector, c);
  }

  lemma {:induction false} PostStays(l: Loop, site: string, collector: string, script: seq<Cycle>, i: int, k: int)
    requires BackoffInRange(l.backoff) && (forall c | c in script :: ValidCycle(c)) && GoodProcess(l)
    requires script != [] && IsPostOf(l, site, collector, script[..|script| - 1], i, k)
    ensures IsPostOf(l, site, collector, script, i, k)
  {
    var init, c := script[..|script| - 1], script[|script| - 1];
    var before := After(l, site, collector, init);
    assert init[..k] == script[..k];
    TurnKeepsBackoff(before, site, collector, c);
    TurnPosts(before, site, collector, c);
  }

  // Every turn that sends has its batch among those posted.
  lemma {:induction false} PostOfTurn(l: Loop, site: string, collector: string, script: seq<Cycle>, k: nat)
    requires BackoffInRange(l.backoff) && (forall c | c in script :: ValidCycle(c)) && GoodProcess(l)
    requires SendsAt(l, site, collector, script, k)
    ensures IsPostOf(l, site, collector, script, |After(l, site, collector, script[..k]).posted|, k)
  {
    if k == |script| - 1 {
      LastPost(l, site, collector, script);
    } else {
      assert script[..|script| - 1][..k] == script[..k];
      PostOfTurn(l, site, collector, script[..|script| - 1], k);
      PostStays(l, site, collector, script, |After(l, site, collector, script[..k]).posted|, k);
    }
  }

  // And every batch posted in the run is the batch of one of its turns.
  lemma {:induction false} TurnOfPost(l: Loop, site: string, collector: string, script: seq<Cycle>, i: nat)
    returns (k: nat)
    requires BackoffInRange(l.backoff) && (forall c | c in script :: ValidCycle(c)) && GoodProcess(l)
    requires |l.posted| <= i < |After(l, site, collector, script).posted|
    ensures IsPostOf(l, site, collector, script, i, k)
  {
    var init, c := script[..|script| - 1], script[|script| - 1];
    var before := After(l, site, collector, init);
    if i < |before.posted| {
      k := TurnOfPost(l, site, collector, init, i);
      PostStays(l, site, collector, script, i, k);
    } else {
      TurnKeepsBackoff(before, site, collector, c);
      TurnPosts(before, site, collector, c);
      k := |script| - 1;
      assert c in script;
      LastPost(l, site, collector, script);
    }
  }

  // Turns are posted in their order.
  lemma {:induction false} PostsInOrder(l: Loop, site: string, collector: string, script: seq<Cycle>, k: nat, m: nat)
    requires BackoffInRange(l.backoff) && (forall c | c in script :: ValidCycle(c)) && GoodProcess(l)
    requires k < m <= |script| && SendsAt(l, site, collector, script, k)
    ensures |After(l, site, collector, script[..k]).posted| < |After(l, site, collector, script[..m]).posted|
  {
    assert script[..m][..k] == script[..k];
    PostOfTurn(l, site, collector, script[..m], k);
  }

  ghost predicate SameSuffix(script: seq<Cycle>, k: int, m: int)
    requires 0 <= k < |script| && 0 <= m < |script| && ValidCycle(script[k]) && ValidCycle(script[m])
  {
    script[k].attempt[..8] == script[m].attempt[..8]
  }

  lemma {:induction false} PostIdsOfTurns(l: Loop, site: string, collector: string, script: seq<Cycle>, k: nat, m: nat)
    requires BackoffInRange(l.backoff) && (forall c | c in script :: ValidCycle(c)) && GoodProcess(l)
    requires k < m && SendsAt(l, site, collector, script, k) && SendsAt(l, site, collector, script, m)
    ensures var posted := After(l, site, collector, script).posted;
            var i := |After(l, site, collector, script[..k]).posted|;
            var j := |After(l, site, collector, script[..m]).posted|;
            |l.posted| <= i < j < |posted| && (posted[i].batchId == posted[j].batchId <==> SameSuffix(script, k, m))
  {
    RunKeepsPosts(l, site, collector, script[..k]);
    PostsInOrder(l, site, collector, script, k, m);
    PostOfTurn(l, site, collector, script, k);
    PostOfTurn(l, site, collector, script, m);
    var p := After(l, site, collector, script).batchId;
    AttemptIdsDiffer(p, p, script[k].attempt, script[m].attempt);
  }

  // No two batches of a run have one id if and only if no two turns that send
  // draw suffixes that agree.
  lemma {:induction false} NoIdTwiceExactlyWhen(l: Loop, site: string, collector: string, script: seq<Cycle>)
    requires BackoffInRange(l.backoff) && (forall c | c in script :: ValidCycle(c)) && GoodProcess(l)
    ensures var posted := After(l, site, collector, script).posted;
            (forall i, j | |l.posted| <= i < j < |posted| :: posted[i].batchId != posted[j].batchId) <==>
            (forall k, m | 0 <= k < m && SendsAt(l, site, collector, script, k)
                           && SendsAt(l, site, collector, script, m) :: !SameSuffix(script, k, m))
  {
    var posted := After(l, site, collector, script).posted;
    forall k, m | 0 <= k < m && SendsAt(l, site, collector, script, k) && SendsAt(l, site, collector, script, m)
      ensures SameSuffix(script, k, m) ==>
                exists i, j :: |l.posted| <= i < j < |posted| && posted[i].batchId == posted[j].batchId
    {
      PostIdsOfTurns(l, site, collector, script, k, m);
    }
    forall i, j | |l.posted| <= i < j < |posted| && posted[i].batchId == posted[j].batchId
      ensures exists k, m :: 0 <= k < m && SendsAt(l, site, collector, script, k)
                             && SendsAt(l, site, collector, script, m) && SameSuffix(script, k, m)
    {
      var k := TurnOfPost(l, site, collector, script, i);
      var m := TurnOfPost(l, site, collector, script, j);
      if m <= k {
        if m < k {
          PostsInOrder(l, site, collector, script, m, k);
        }
        assert false;
      }
      PostIdsOfTurns(l, site, collector, script, k, m);
    }
  }

  // ---------------------------------------------------------------- the wait

  // A turn after which the loop starts from one second again: nothing to send,
  // or a 2xx.
  ghost predicate Resets(l: Loop, c: Cycle) {
    && DrainOk(l.rows, c.read)
    && (|| l.rows == [] || Readable(Window(l.rows)) == []
        || (Marshals(Readable(Window(l.rows))) && c.reply.Status? && 200 <= c.reply.code < 300))
  }

  // A turn whose POST got no answer or a server's error.
  ghost predicate TriesAgain(l: Loop, c: Cycle) {
    Sends(l.rows, c) && (c.reply.NoReply? || c.reply.code >= 500)
  }

  // How often the loop has retried since it last started afresh.
  ghost function RetriesSince(l: Loop, site: string, collector: string, script: seq<Cycle>): nat
    requires BackoffInRange(l.backoff) && forall c | c in script :: ValidCycle(c)
  {
    if script == [] then 0
    else
      var init, c := script[..|script| - 1], script[|script| - 1];
      var before := After(l, site, collector, init);
      if Resets(before, c) then 0
      else RetriesSince(l, site, collector, init) + (if TriesAgain(before, c) then 1 else 0)
  }

  lemma TurnWait(l: Loop, site: string, collector: string, c: Cycle)
    requires JitterRange(l.backoff) > 0 && ValidCycle(c)
    ensures Turn(l, site, collector, c).backoff ==
            if Resets(l, c) then 1_000_000_000
            else if TriesAgain(l, c) then NextBackoff(l.backoff, c.pick)
            else l.backoff
  {
  }

  // The wait tells how often the loop has retried since: one second when not at
  // all, then 1.6 to 2.4 times as much with each, up to the band of the cap.
  // Failed reads and refusals in between leave it alone.
  lemma {:induction false} WaitTracksRetries(l: Loop, site: string, collector: string, script: seq<Cycle>)
    requires BackoffInRange(l.backoff) && forall c | c in script :: ValidCycle(c)
    ensures var n, wait := RetriesSince(l, site, collector, script), After(l, site, collector, script).backoff as real;
            LeastWait(n) <= wait && (l.backoff == 1_000_000_000 ==> wait <= MostWait(n))
  {
    if script != [] {
      var init, c := script[..|script| - 1], script[|script| - 1];
      WaitTracksRetries(l, site, collector, init);
      var before := After(l, site, collector, init);
      TurnKeepsBackoff(before, site, collector, c);
      TurnWait(before, site, collector, c);
      OneMoreRetry(before.backoff, c.pick, RetriesSince(l, site, collector, init));
      if before.backoff as real <= MostWait(RetriesSince(l, site, collector, init)) {
        OneMoreRetryAtMost(before.backoff, c.pick, RetriesSince(l, site, collector, init));
      }
    }
  }

  lemma {:induction false} LeastWaitCapped(n: nat)
    requires n >= 7
    ensures LeastWait(n) == BAND
  {
    if n == 7 {
      assert LeastWait(2) == 2.56 * SECOND as real;
      assert LeastWait(4) == 6.5536 * SECOND as real;
      assert LeastWait(6) == 16.777216 * SECOND as real;
    } else {
      LeastWaitCapped(n - 1);
    }
  }

  // Seven retries since it last started afresh bring the wait to the capped
  // band, whatever it was before and whatever the random source does.
  lemma {:induction false} SevenRetriesReachTheCap(l: Loop, site: string, collector: string, script: seq<Cycle>)
    requires BackoffInRange(l.backoff) && forall c | c in script :: ValidCycle(c)
    requires RetriesSince(l, site, collector, script) >= 7
    ensures 24_000_000_000 <= After(l, site, collector, script).backoff < 36_000_000_000
  {
    WaitTracksRetries(l, site, collector, script);
    LeastWaitCapped(RetriesSince(l, site, collector, script));
  }

  // --------------------------------------------------------------- progress

  // No turn of the script would delete the first window of these rows.
  ghost predicate Stuck(rows: seq<Stored>, script: seq<Cycle>) {
    forall c | c in script :: !Removes(rows, c)
  }

  lemma StuckSnoc(rows: seq<Stored>, init: seq<Cycle>, c: Cycle)
    ensures Stuck(rows, init + [c]) <==> Stuck(rows, init) && !Removes(rows, c)
  {
    assert c in init + [c];
    assert forall d :: d in init + [c] <==> d in init || d == c;
  }

  lemma TurnProgress(l: Loop, site: string, collector: string, c: Cycle)
    requires JitterRange(l.backoff) > 0 && ValidCycle(c) && Ascending(l.rows)
    ensures var rows := Turn(l, site, collector, c).rows;
            if Removes(l.rows, c) then |rows| < |l.rows| else rows == l.rows
  {
    TurnRows(l, site, collector, c);
  }

  lemma {:induction false} RunKeepsOrder(l: Loop, site: string, collector: string, script: seq<Cycle>)
    requires BackoffInRange(l.backoff) && forall c | c in script :: ValidCycle(c)
    requires Ascending(l.rows)
    ensures Ascending(After(l, site, collector, script).rows)
  {
    RunRemovesOnlyAnswered(l, site, collector, script);
  }

  // A run gets anywhere if and only if one of its turns would have deleted the
  // first window: what comes behind has to wait for it.
  lemma {:induction false} ProgressExactlyWhen(l: Loop, site: string, collector: string, script: seq<Cycle>)
    requires BackoffInRange(l.backoff) && forall c | c in script :: ValidCycle(c)
    requires Ascending(l.rows)
    ensures var rows := After(l, site, collector, script).rows;
            if Stuck(l.rows, script) then rows == l.rows else |rows| < |l.rows|
  {
    if script != [] {
      var init, c := script[..|script| - 1], script[|script| - 1];
      ProgressExactlyWhen(l, site, collector, init);
      RunKeepsOrder(l, site, collector, init);
      var before := After(l, site, collector, init);
      TurnKeepsBackoff(before, site, collector, c);
      TurnProgress(before, site, collector, c);
      assert script == init + [c];
      StuckSnoc(l.rows, init, c);
    }
  }

  // As long as no POST is answered 2xx, a readable sample in the first window
  // keeps every row where it is.
  lemma {:induction false} RefusedWindowBlocks(l: Loop, site: string, collector: string, script: seq<Cycle>)
    requires BackoffInRange(l.backoff) && forall c | c in script :: ValidCycle(c)
    requires Ascending(l.rows) && Readable(Window(l.rows)) != []
    requires forall c | c in script :: !Is2xx(c.reply)
    ensures After(l, site, collector, script).rows == l.rows
  {
    ProgressExactlyWhen(l, site, collector, script);
  }

  predicate FaultFree(c: Cycle) {
    c.read == NoReadFault && c.ack == NoTxFault && Is2xx(c.reply)
  }

  // Whatever was enqueued can be marshalled again.
  ghost predicate AllEncodable(rows: seq<Stored>) {
    forall i | 0 <= i < |rows| :: Encodable(Decode(rows[i].payload))
  }

  lemma {:induction false} ReadableMarshals(rows: seq<Row>)
    requires forall i | 0 <= i < |rows| :: Encodable(rows[i].sample)
    ensures Marshals(Readable(rows))
  {
    if rows != [] {
      ReadableMarshals(rows[1..]);
    }
  }

  lemma FaultFreeRemoves(rows: seq<Stored>, c: Cycle)
    requires AllEncodable(rows) && FaultFree(c) && rows != []
    ensures Removes(rows, c)
  {
    ReadableMarshals(Window(rows));
  }

  // Turns without a fault empty the buffer, one window each.
  lemma {:induction false} FaultFreeTurnsDrain(l: Loop, site: string, collector: string, script: seq<Cycle>)
    requires BackoffInRange(l.backoff) && forall c | c in script :: ValidCycle(c)
    requires Ascending(l.rows) && AllEncodable(l.rows) && forall c | c in script :: FaultFree(c)
    ensures After(l, site, collector, script).rows == l.rows[Min(500 * |script|, |l.rows|)..]
  {
    if script != [] {
      var init, c := script[..|script| - 1], script[|script| - 1];
      FaultFreeTurnsDrain(l, site, collector, init);
      var before := After(l, site, collector, init);
      TurnKeepsBackoff(before, site, collector, c);
      TurnRows(before, site, collector, c);
      if before.rows != [] {
        FaultFreeRemoves(before.rows, c);
      }
    }
  }

  class Forwarder {
    const buf: Buffer
    const site: string
    const collector: string
    var batchId: string
    ghost var posted: seq<Batch>
    ghost var answered: seq<Batch>

    ghost predicate Valid()
      reads this, buf
    {
      buf.Valid() && (batchId == "" || |batchId| == 36)
    }

    constructor (buf: Buffer, site: string, collector: string)
      requires buf.Valid()
      ensures Valid() && this.buf == buf && this.site == site && this.collector == collector
      ensures batchId == "" && posted == [] && answered == []
    {
      this.buf, this.site, this.collector := buf, site, collector;
      batchId, posted, answered := "", [], [];
    }

    // Sends the readable rows under a fresh id; every row's id is returned for
    // the acknowledgement, the unreadable ones included.
    method SendBatch(rows: seq<Row>, processId: string, attempt: string, reply: Reply) returns (outcome: Outcome)
      requires |processId| == 36 && |attempt| == 36
      modifies this
      ensures batchId == if old(batchId) == "" then processId else old(batchId)
      ensures Readable(rows) == [] ==>
                outcome == Delivered(RowIds(rows)) && posted == old(posted) && answered == old(answered)
      ensures Readable(rows) != [] && !Marshals(Readable(rows)) ==>
                outcome == Refused && posted == old(posted) && answered == old(answered)
      ensures Readable(rows) != [] && Marshals(Readable(rows)) ==>
                var b := BatchFor(rows, site, collector, AttemptId(batchId, attempt));
                && outcome == Judge(rows, reply)
                && posted == old(posted) + [b]
                && answered == old(answered) + (if outcome.Delivered? then [b] else [])
    {
      if batchId == "" {
        batchId := processId;
      }
      var id := batchId + "-" + attempt[..8];
      var ids: seq<int>, samples: seq<Sample> := [], [];
      for i := 0 to |rows|
        invariant ids == RowIds(rows[..i])
        invariant samples == Readable(rows[..i])
        invariant batchId == (if old(batchId) == "" then processId else old(batchId))
        invariant posted == old(posted) && answered == old(answered)
      {
        assert rows[..i + 1] == rows[..i] + [rows[i]];
        ReadableAppend(rows[..i], [rows[i]]);
        if rows[i].sample.asset == "" {
          ids := ids + [rows[i].id];
          continue;
        }
        samples := samples + [rows[i].sample];
        ids := ids + [rows[i].id];
      }
      assert rows[..|rows|] == rows;
      if |samples| == 0 {
        return Delivered(ids);
      }
      if !Marshals(samples) {
        return Refused;
      }
      ghost var b := Batch(id, site, collector, samples);
      posted := posted + [b];
      match reply
      case NoReply =>
        return Retryable;
      case Status(code) =>
        if 200 <= code < 300 {
          answered := answered + [b];
          return Delivered(ids);
        } else if code >= 500 {
          return Retryable;
        } else {
          return Refused;
        }
    }

    // One turn of the loop; the result is the next wait.
    method TakeTurn(c: Cycle, backoff: int) returns (next: int)
      requires Valid() && JitterRange(backoff) > 0 && ValidCycle(c)
      modifies this, buf
      ensures Valid()
      ensures Loop(buf.rows, next, batchId, posted, answered) ==
              Turn(Loop(old(buf.rows), backoff, old(batchId), old(posted), old(answered)), site, collector, c)
    {
      next := backoff;
      var ok, rows := buf.Drain(BATCH_SIZE, c.read);
      if !ok {
        return;
      }
      if |rows| == 0 {
        next := SECOND;
        return;
      }
      var outcome := SendBatch(rows, c.processId, c.attempt, c.reply);
      match outcome
      case Retryable =>
        next := NextBackoff(backoff, c.pick);
      case Refused =>
      case Delivered(ids) =>
        var _ := buf.Ack(ids, c.ack);
        next := SECOND;
    }

    method {:induction false} Run(script: seq<Cycle>) returns (backoff: int)
      requires Valid()
      requires forall c | c in script :: ValidCycle(c)
      modifies this, buf
      ensures Valid()
      ensures Loop(buf.rows, backoff, batchId, posted, answered) ==
              After(Loop(old(buf.rows), SECOND, old(batchId), old(posted), old(answered)), site, collector, script)
    {
      backoff := SECOND;
      ghost var start := Loop(buf.rows, SECOND, batchId, posted, answered);
      for i := 0 to |script|
        invariant Valid()
        invariant Loop(buf.rows, backoff, batchId, posted, answered) == After(start, site, collector, script[..i])
      {
        assert script[..i + 1][..i] == script[..i];
        TurnKeepsBackoff(Loop(buf.rows, backoff, batchId, posted, answered), site, collector, script[i]);
        backoff := TakeTurn(script[i], backoff);
      }
      assert script[..|script|] == script;
    }
  }
}
