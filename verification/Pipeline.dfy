// The whole path of a sample: badger's buffer, its forwarder, the network and
// heron, interleaved step by step, with lost replies, failed writes, failed
// acknowledgements, late requests and restarts.
module Pipeline {
  import opened Wrappers
  import opened Samples
  import opened SampleBuffer
  import opened Heron
  import opened Forwarder

  datatype Config = Config(site: string, collector: string, writeHypertable: bool)

  // What the forwarder is doing, and the rows it holds meanwhile.
  datatype Phase =
    | Idle
    | Drained(rows: seq<Stored>)
    | Posted(rows: seq<Stored>, id: string)
    | Acking(rows: seq<Stored>)

  // A write that is committed can still be reported to heron as failed.
  datatype Write = Untried | Committed(known: bool) | Failed
  datatype Answer = Unanswered | Accepted | ServerError | ClientError

  // One POST, from the moment it leaves badger; it may reach heron at any
  // later time, or never. `start` is where its rows begin in the log.
  datatype Attempt = Attempt(
    start: nat, rows: seq<Stored>, batch: Batch, hyper: Write, freshness: Write, answer: Answer)

  // `log` is every row ever committed to the buffer, in id order.
  datatype State = State(
    cfg: Config,
    rows: seq<Stored>, lastId: int,
    phase: Phase,
    attempts: map<string, Attempt>,
    table: SampleTable,
    log: seq<Stored>)

  datatype Event =
    | Enqueue(ss: seq<Sample>)
    | Drain
    | Post(id: string)
    | SkipUnreadable
    | WriteSamples(id: string, receivedAt: int, w: Write)
    | WriteFreshness(id: string, w: Write)
    | Reply(id: string)
    | Refuse(id: string)
    | Learn2xx
    | GiveUp
    | Ack
    | AckFails
    | Restart

  function Acked(s: State): int {
    |s.log| - |s.rows|
  }

  // A batch id that neither this collector nor the table has used. Distinct
  // UUID suffixes give this.
  ghost predicate FreshId(s: State, id: string) {
    id !in s.attempts && forall k | k in s.table :: k.collector == s.cfg.collector ==> k.batchId != id
  }

  ghost predicate Enabled(s: State, e: Event) {
    match e
    case Enqueue(ss) => forall x | x in ss :: Encodable(x)
    case Drain => s.phase.Idle? && s.rows != []
    case Post(id) => s.phase.Drained? && Readable(Opened(s.phase.rows)) != [] && FreshId(s, id)
    case SkipUnreadable => s.phase.Drained? && Readable(Opened(s.phase.rows)) == []
    case WriteSamples(id, _, w) =>
      && !w.Untried? && s.cfg.writeHypertable && id in s.attempts
      && s.attempts[id].hyper.Untried? && s.attempts[id].answer.Unanswered?
    case WriteFreshness(id, w) =>
      && !w.Untried? && id in s.attempts && s.attempts[id].freshness.Untried? && s.attempts[id].answer.Unanswered?
    case Reply(id) =>
      && id in s.attempts && s.attempts[id].answer.Unanswered? && !s.attempts[id].freshness.Untried?
      && (s.cfg.writeHypertable ==> !s.attempts[id].hyper.Untried?)
    case Refuse(id) =>
      && id in s.attempts && s.attempts[id].answer.Unanswered?
      && s.attempts[id].hyper.Untried? && s.attempts[id].freshness.Untried?
    case Learn2xx => s.phase.Posted? && s.phase.id in s.attempts && s.attempts[s.phase.id].answer.Accepted?
    case GiveUp => s.phase.Posted?
    case Ack => s.phase.Acking?
    case AckFails => s.phase.Acking?
    case Restart => true
  }

  // heron sees an error.
  predicate Errs(w: Write) {
    w.Failed? || (w.Committed? && !w.known)
  }

  ghost function Apply(s: State, e: Event): State
    requires Enabled(s, e)
  {
    match e
    case Enqueue(ss) =>
      var more := Numbered(ss, s.lastId);
      s.(rows := s.rows + more, lastId := s.lastId + |ss|, log := s.log + more)
    case Drain => s.(phase := Drained(s.rows[..Min(BATCH_SIZE, |s.rows|)]))
    case Post(id) =>
      var w := s.phase.rows;
      var b := BatchFor(Opened(w), s.cfg.site, s.cfg.collector, id);
      var start := if Acked(s) < 0 then 0 else Acked(s);
      s.(phase := Posted(w, id), attempts := s.attempts[id := Attempt(start, w, b, Untried, Untried, Unanswered)])
    case SkipUnreadable => s.(phase := Acking(s.phase.rows))
    case WriteSamples(id, receivedAt, w) =>
      var a := s.attempts[id];
      s.(attempts := s.attempts[id := a.(hyper := w)],
         table := if w.Committed? then Insert(s.table, a.batch, receivedAt) else s.table)
    case WriteFreshness(id, w) =>
      s.(attempts := s.attempts[id := s.attempts[id].(freshness := w)])
    case Reply(id) =>
      var a := s.attempts[id];
      var answer := if Errs(a.hyper) || Errs(a.freshness) then ServerError else Accepted;
      s.(attempts := s.attempts[id := a.(answer := answer)])
    case Refuse(id) => s.(attempts := s.attempts[id := s.attempts[id].(answer := ClientError)])
    case Learn2xx => s.(phase := Acking(s.phase.rows))
    case GiveUp => s.(phase := Idle)
    case Ack => s.(phase := Idle, rows := Without(s.rows, IdSet(Ids(s.phase.rows))))
    case AckFails => s.(phase := Idle)
    case Restart => s.(phase := Idle)
  }

  ghost predicate Init(s: State) {
    && s.lastId >= 0 && WellFormed(s.rows, s.lastId) && s.log == s.rows
    && s.phase.Idle? && s.attempts == map[]
  }

  ghost predicate Runs(s: State, es: seq<Event>, t: State)
    decreases es
  {
    if es == [] then s == t
    else Enabled(s, es[0]) && Runs(Apply(s, es[0]), es[1..], t)
  }

  // -------------------------------------------------------------- invariant

  predicate IsReadable(r: Stored) {
    r.payload.Json? && r.payload.sample.asset != ""
  }

  ghost predicate Covers(a: Attempt, i: int) {
    a.start <= i < a.start + |a.rows|
  }

  // The buffer is the log without its acknowledged prefix.
  ghost predicate BufferInv(s: State) {
    && s.lastId >= 0 && WellFormed(s.log, s.lastId)
    && 0 <= Acked(s) && s.rows == s.log[Acked(s)..]
  }

  // What the forwarder holds is still at the head of the buffer.
  ghost predicate HeldInv(s: State) {
    && (!s.phase.Idle? ==> s.phase.rows <= s.rows)
    && (s.phase.Posted? ==>
          && s.phase.id in s.attempts
          && s.attempts[s.phase.id].start == Acked(s) && s.attempts[s.phase.id].rows == s.phase.rows)
  }

  // How far into the log rows are acknowledged or about to be.
  function Released(s: State): int {
    Acked(s) + (if s.phase.Acking? then |s.phase.rows| else 0)
  }

  // Row i of the log is unreadable, or a POST carrying it was answered 2xx.
  ghost predicate AnsweredFor(s: State, i: int) {
    0 <= i < |s.log| && (IsReadable(s.log[i]) ==> exists id :: AcceptedCarries(s, id, i))
  }

  ghost predicate AcceptedCarries(s: State, id: string, i: int) {
    id in s.attempts && s.attempts[id].answer.Accepted? && Covers(s.attempts[id], i)
  }

  ghost predicate AttemptInv(s: State, id: string)
    requires id in s.attempts && 0 <= Acked(s)
  {
    var a := s.attempts[id];
    && a.start <= Acked(s) && a.start + |a.rows| <= |s.log|
    && a.rows == s.log[a.start..a.start + |a.rows|]
    && a.batch == BatchFor(Opened(a.rows), s.cfg.site, s.cfg.collector, id)
    && (a.answer.Accepted? ==> a.freshness.Committed? && (s.cfg.writeHypertable ==> a.hyper.Committed?))
  }

  // The table holds, of each of our batches, all rows or none.
  ghost predicate TableInv(s: State) {
    forall k: SampleKey | k.collector == s.cfg.collector && k.batchId in s.attempts ::
      KeyInv(s, k)
  }

  ghost predicate KeyInv(s: State, k: SampleKey)
    requires k.batchId in s.attempts
  {
    var a := s.attempts[k.batchId];
    && (k in s.table <==> a.hyper.Committed? && k.position < |a.batch.samples| && k == KeyAt(a.batch, k.position))
    && (k in s.table ==> s.table[k] == RowAt(a.batch, k.position, s.table[k].receivedAt))
  }

  ghost predicate Inv(s: State) {
    && BufferInv(s) && HeldInv(s) && TableInv(s)
    && (forall id | id in s.attempts :: AttemptInv(s, id))
    && (forall i | 0 <= i < Released(s) :: AnsweredFor(s, i))
  }

  // Acknowledging deletes exactly the rows that were sent, whatever was
  // enqueued since they were drained.
  lemma {:induction false} AckDeletesExactlyTheSent(s: State)
    requires BufferInv(s) && HeldInv(s) && s.phase.Acking?
    ensures Apply(s, Ack).rows == s.rows[|s.phase.rows|..] == s.log[Released(s)..]
  {
    var n := |s.phase.rows|;
    assert s.rows[..n] == s.phase.rows;
    assert Ascending(s.rows) by {
      forall i, j | 0 <= i < j < |s.rows| ensures s.rows[i].id < s.rows[j].id {
        assert s.rows[i] == s.log[Acked(s) + i] && s.rows[j] == s.log[Acked(s) + j];
      }
    }
    AckRemovesExactlyThePrefix(s.rows, n);
  }

  lemma {:induction false} EnqueueStep(s: State, ss: seq<Sample>)
    requires BufferInv(s) && Enabled(s, Enqueue(ss))
    ensures BufferInv(Apply(s, Enqueue(ss)))
  {
    WithoutNone(s.log);
    IdsNeverReused(s.log, s.lastId, {}, ss);
    DropAppend(s.log, Numbered(ss, s.lastId), Acked(s));
  }

  lemma DropAppend<T>(a: seq<T>, b: seq<T>, k: nat)
    requires k <= |a|
    ensures (a + b)[k..] == a[k..] + b
  {
  }

  // The log only grows, and only an acknowledgement moves its acked prefix.
  lemma {:induction false} BufferStep(s: State, e: Event)
    requires BufferInv(s) && HeldInv(s) && Enabled(s, e)
    ensures BufferInv(Apply(s, e)) && s.log <= Apply(s, e).log
    ensures Acked(Apply(s, e)) == if e.Ack? then Released(s) else Acked(s)
  {
    match e
    case Enqueue(ss) => EnqueueStep(s, ss);
    case Ack => AckDeletesExactlyTheSent(s);
    case _ =>
      var s' := Apply(s, e);
      assert s'.log == s.log && s'.rows == s.rows && s'.lastId == s.lastId;
  }

  lemma {:induction false} HeldStep(s: State, e: Event)
    requires BufferInv(s) && HeldInv(s) && Enabled(s, e)
    ensures HeldInv(Apply(s, e))
  {
    BufferStep(s, e);
  }

  // A step moves an attempt on, never what it carries; it is answered 2xx only
  // after its writes.
  lemma AttemptMovesOn(s: State, e: Event, id: string)
    requires Enabled(s, e) && id in s.attempts
    requires var a := s.attempts[id];
             a.answer.Accepted? ==> a.freshness.Committed? && (s.cfg.writeHypertable ==> a.hyper.Committed?)
    ensures id in Apply(s, e).attempts
    ensures var a, a' := s.attempts[id], Apply(s, e).attempts[id];
            && a'.start == a.start && a'.rows == a.rows && a'.batch == a.batch
            && (a'.answer.Accepted? ==> a'.freshness.Committed? && (s.cfg.writeHypertable ==> a'.hyper.Committed?))
  {
  }

  lemma {:induction false} AttemptStep(s: State, e: Event, id: string)
    requires BufferInv(s) && HeldInv(s) && Enabled(s, e) && id in s.attempts && AttemptInv(s, id)
    ensures BufferInv(Apply(s, e)) && id in Apply(s, e).attempts && AttemptInv(Apply(s, e), id)
  {
    BufferStep(s, e);
    AttemptMovesOn(s, e, id);
    var a, log' := s.attempts[id], Apply(s, e).log;
    assert log'[a.start..a.start + |a.rows|] == s.log[a.start..a.start + |a.rows|];
  }

  lemma {:induction false} PostedInv(s: State, id: string)
    requires BufferInv(s) && HeldInv(s) && Enabled(s, Post(id))
    ensures AttemptInv(Apply(s, Post(id)), id)
  {
    var n := |s.phase.rows|;
    assert s.rows[..n] == s.phase.rows;
    assert s.log[Acked(s)..Acked(s) + n] == s.rows[..n];
  }

  lemma {:induction false} AnsweredStep(s: State, e: Event, i: int)
    requires BufferInv(s) && HeldInv(s) && Enabled(s, e) && AnsweredFor(s, i)
    ensures AnsweredFor(Apply(s, e), i)
  {
    BufferStep(s, e);
    assert Apply(s, e).log[i] == s.log[i];
    if IsReadable(s.log[i]) {
      var id :| AcceptedCarries(s, id, i);
      assert AcceptedCarries(Apply(s, e), id, i);
    }
  }

  // Only these two steps release rows: those that the forwarder holds.
  lemma {:induction false} WhatReleases(s: State, e: Event)
    requires BufferInv(s) && HeldInv(s) && Enabled(s, e)
    ensures 0 <= Acked(Apply(s, e)) && s.log <= Apply(s, e).log
    ensures if e.SkipUnreadable? || e.Learn2xx?
            then Acked(Apply(s, e)) == Acked(s) == Released(s) && Released(Apply(s, e)) == Acked(s) + |s.phase.rows|
            else Released(Apply(s, e)) <= Released(s)
  {
    BufferStep(s, e);
  }

  lemma {:induction false} HeldIsInTheLog(s: State, j: nat)
    requires BufferInv(s) && HeldInv(s) && !s.phase.Idle? && j < |s.phase.rows|
    ensures Acked(s) + j < |s.log| && s.phase.rows[j] == s.log[Acked(s) + j]
  {
    assert s.phase.rows[j] == s.rows[j];
  }

  // Rows become releasable only when all of them are unreadable or their POST
  // was answered 2xx.
  lemma {:induction false} ReleaseStep(s: State, e: Event, i: int)
    requires BufferInv(s) && HeldInv(s) && Enabled(s, e)
    requires Released(s) <= i < Released(Apply(s, e))
    ensures AnsweredFor(Apply(s, e), i)
  {
    WhatReleases(s, e);
    var j := i - Acked(s);
    HeldIsInTheLog(s, j);
    if e.SkipUnreadable? {
      assert Opened(s.phase.rows)[j].sample == Decode(s.log[i].payload);
      ReadableContents(Opened(s.phase.rows), Decode(s.log[i].payload));
    } else {
      HeldIsCarried(s, i);
      assert AcceptedCarries(Apply(s, e), s.phase.id, i);
    }
  }

  lemma HeldIsCarried(s: State, i: int)
    requires HeldInv(s) && s.phase.Posted? && 0 <= i - Acked(s) < |s.phase.rows|
    ensures s.phase.id in s.attempts && Covers(s.attempts[s.phase.id], i)
  {
  }

  lemma {:induction false} KeyStep(s: State, e: Event, k: SampleKey)
    requires Enabled(s, e) && k.collector == s.cfg.collector && k.batchId in Apply(s, e).attempts
    requires k.batchId in s.attempts ==> KeyInv(s, k)
    requires e.WriteSamples? ==>
               var b := s.attempts[e.id].batch; b.collector == s.cfg.collector && b.batchId == e.id
    ensures KeyInv(Apply(s, e), k)
  {
    if e.WriteSamples? && e.w.Committed? {
      var b := s.attempts[e.id].batch;
      InsertAddsOnly(s.table, b, 0, e.receivedAt, k);
      if k.batchId == e.id && k.position < |b.samples| && k == KeyAt(b, k.position) {
        InsertAddsAll(s.table, b, 0, e.receivedAt, k.position);
      }
    }
  }

  lemma {:induction false} StepInv(s: State, e: Event)
    requires Inv(s) && Enabled(s, e)
    ensures Inv(Apply(s, e)) && s.log <= Apply(s, e).log
  {
    var s' := Apply(s, e);
    BufferStep(s, e);
    HeldStep(s, e);
    forall id | id in s'.attempts ensures AttemptInv(s', id) {
      if id in s.attempts {
        AttemptStep(s, e, id);
      } else {
        PostedInv(s, id);
      }
    }
    forall k: SampleKey | k.collector == s'.cfg.collector && k.batchId in s'.attempts ensures KeyInv(s', k) {
      if e.WriteSamples? {
        assert AttemptInv(s, e.id);
      }
      KeyStep(s, e, k);
    }
    forall i | 0 <= i < Released(s') ensures AnsweredFor(s', i) {
      if i < Released(s) {
        AnsweredStep(s, e, i);
      } else {
        ReleaseStep(s, e, i);
      }
    }
  }

  // Everything the producers offered during a run.
  ghost function Offered(es: seq<Event>): seq<Sample> {
    if es == [] then []
    else OfferedBy(es[0]) + Offered(es[1..])
  }

  lemma {:induction false} RunInv(s: State, es: seq<Event>, t: State)
    requires Inv(s) && Runs(s, es, t)
    ensures Inv(t) && t.cfg == s.cfg
    decreases es
  {
    if es != [] {
      StepInv(s, es[0]);
      RunInv(Apply(s, es[0]), es[1..], t);
    }
  }

  lemma NumberedTwice(a: seq<Sample>, b: seq<Sample>, last: int)
    ensures Numbered(a + b, last) == Numbered(a, last) + Numbered(b, last + |a|)
  {
  }

  function OfferedBy(e: Event): seq<Sample> {
    if e.Enqueue? then e.ss else []
  }

  lemma LogStep(s: State, e: Event, later: seq<Sample>)
    requires Enabled(s, e)
    ensures Apply(s, e).log + Numbered(later, Apply(s, e).lastId) == s.log + Numbered(OfferedBy(e) + later, s.lastId)
  {
    if e.Enqueue? {
      NumberedTwice(e.ss, later, s.lastId);
    } else {
      assert [] + later == later;
    }
  }

  // The log is exactly what was in the buffer at the start followed by
  // everything offered since, in that order.
  lemma {:induction false} LogIsComplete(s: State, es: seq<Event>, t: State)
    requires Runs(s, es, t)
    ensures t.log == s.log + Numbered(Offered(es), s.lastId)
    decreases es
  {
    if es == [] {
      assert t.log == s.log + [];
    } else {
      LogIsComplete(Apply(s, es[0]), es[1..], t);
      LogStep(s, es[0], Offered(es[1..]));
    }
  }

  // ---------------------------------------------------------------- results

  // The table has a row for this sample from our collector under this key: every
  // column but the time of its receipt, and no unit for an empty one.
  ghost predicate StoredAt(s: State, k: SampleKey, x: Sample) {
    && k in s.table
    && var r := s.table[k];
    && r.site == s.cfg.site && r.collector == s.cfg.collector && k.collector == s.cfg.collector
    && r.batchId == k.batchId && r.position == k.position && r.ts == k.ts == x.ts
    && r.asset == x.asset && r.metric == x.metric && r.value == x.value && r.tags == x.tags
    && r.unit == if x.unit == "" then None else Some(x.unit)
  }

  // No loss: after any run, every readable sample ever committed to the buffer
  // is still buffered or is in telemetry_samples.
  lemma {:induction false} NoLoss(s0: State, es: seq<Event>, s: State, i: nat)
    requires Init(s0) && Runs(s0, es, s) && s0.cfg.writeHypertable
    requires i < |s.log| && IsReadable(s.log[i])
    ensures s.log[i] in s.rows || exists k :: StoredAt(s, k, s.log[i].payload.sample)
  {
    RunInv(s0, es, s);
    if i >= Acked(s) {
      assert s.rows[i - Acked(s)] == s.log[i];
    } else {
      assert AnsweredFor(s, i);
      var id :| AcceptedCarries(s, id, i);
      CommittedIsStored(s, id, i);
    }
  }

  lemma {:induction false} CommittedIsStored(s: State, id: string, i: int)
    requires Inv(s) && id in s.attempts && s.attempts[id].hyper.Committed?
    requires Covers(s.attempts[id], i) && IsReadable(s.log[i])
    ensures exists k :: StoredAt(s, k, Decode(s.log[i].payload))
  {
    assert AttemptInv(s, id);
    var a, x := s.attempts[id], Decode(s.log[i].payload);
    assert Opened(a.rows)[i - a.start].sample == x;
    ReadableContents(Opened(a.rows), x);
    var p :| 0 <= p < |a.batch.samples| && a.batch.samples[p] == x;
    assert KeyInv(s, KeyAt(a.batch, p));
    assert StoredAt(s, KeyAt(a.batch, p), x);
  }

  // The step inserts this batch at this time.
  predicate InsertsFor(e: Event, id: string, receivedAt: int) {
    e.WriteSamples? && e.id == id && e.receivedAt == receivedAt && e.w.Committed?
  }

  lemma {:induction false} StepReceives(s: State, e: Event, k: SampleKey)
    requires Inv(s) && Enabled(s, e) && k in Apply(s, e).table && k !in s.table
    ensures InsertsFor(e, k.batchId, Apply(s, e).table[k].receivedAt)
  {
    assert AttemptInv(s, e.id);
    var b := s.attempts[e.id].batch;
    InsertAddsOnly(s.table, b, 0, e.receivedAt, k);
    InsertAddsAll(s.table, b, 0, e.receivedAt, k.position);
  }

  lemma StepKeepsRow(s: State, e: Event, k: SampleKey)
    requires Enabled(s, e) && k in s.table
    ensures k in Apply(s, e).table && Apply(s, e).table[k] == s.table[k]
  {
    if e.WriteSamples? {
      InsertAddsOnly(s.table, s.attempts[e.id].batch, 0, e.receivedAt, k);
    }
  }

  // A row that was not there from the start carries the time of the insert that
  // wrote it, an insert of its own batch.
  lemma {:induction false} ReceivedWhenInserted(s: State, es: seq<Event>, t: State, k: SampleKey)
    requires Inv(s) && Runs(s, es, t) && k in t.table
    ensures if k in s.table then t.table[k] == s.table[k]
            else exists n :: 0 <= n < |es| && InsertsFor(es[n], k.batchId, t.table[k].receivedAt)
    decreases es
  {
    if es != [] {
      var s1 := Apply(s, es[0]);
      StepInv(s, es[0]);
      ReceivedWhenInserted(s1, es[1..], t, k);
      if k in s.table {
        StepKeepsRow(s, es[0], k);
      } else if k in s1.table {
        StepReceives(s, es[0], k);
      } else {
        var n :| 0 <= n < |es| - 1 && InsertsFor(es[1..][n], k.batchId, t.table[k].receivedAt);
        assert InsertsFor(es[n + 1], k.batchId, t.table[k].receivedAt);
      }
    }
  }

  // FIFO: the buffer is always the log without a prefix, and that prefix is
  // exactly what was acknowledged: each of its rows was unreadable or went out
  // in a POST whose two writes were both committed.
  lemma {:induction false} BufferIsSuffixOfLog(s0: State, es: seq<Event>, s: State)
    requires Init(s0) && Runs(s0, es, s) && s0.cfg.writeHypertable
    ensures 0 <= Acked(s) && s.rows == s.log[Acked(s)..] && Ascending(s.log)
    ensures forall i | 0 <= i < Acked(s) && IsReadable(s.log[i]) ::
              exists id :: id in s.attempts && Covers(s.attempts[id], i)
                           && s.attempts[id].hyper.Committed? && s.attempts[id].freshness.Committed?
  {
    RunInv(s0, es, s);
    forall i | 0 <= i < Acked(s) && IsReadable(s.log[i])
      ensures exists id :: id in s.attempts && Covers(s.attempts[id], i)
                           && s.attempts[id].hyper.Committed? && s.attempts[id].freshness.Committed?
    {
      assert AnsweredFor(s, i);
      var id :| AcceptedCarries(s, id, i);
      assert AttemptInv(s, id);
    }
  }

  // Row i of the log has reached the table at least once.
  ghost predicate Arrived(s: State, i: int) {
    exists id :: id in s.attempts && s.attempts[id].hyper.Committed? && Covers(s.attempts[id], i)
  }

  // First deliveries follow enqueue order, even though a POST given up on can
  // still be processed later.
  lemma {:induction false} ArrivalFollowsEnqueueOrder(s0: State, es: seq<Event>, s: State, i: nat, j: nat)
    requires Init(s0) && Runs(s0, es, s) && s0.cfg.writeHypertable
    requires i < j < |s.log| && IsReadable(s.log[i]) && Arrived(s, j)
    ensures Arrived(s, i)
  {
    RunInv(s0, es, s);
    var id :| id in s.attempts && s.attempts[id].hyper.Committed? && Covers(s.attempts[id], j);
    assert AttemptInv(s, id);
    if i < s.attempts[id].start {
      assert AnsweredFor(s, i);
      var earlier :| AcceptedCarries(s, earlier, i);
      assert AttemptInv(s, earlier);
    }
  }

  // ----------------------------------------------------------- multiplicity

  // The indexes of the readable rows, in order.
  function Spots(rows: seq<Stored>): (r: seq<nat>)
    ensures forall p | 0 <= p < |r| :: r[p] < |rows|
  {
    if rows == [] then []
    else
      var n := |rows| - 1;
      Spots(rows[..n]) + (if IsReadable(rows[n]) then [n] else [])
  }

  lemma {:induction false} SpotsAreTheSamples(rows: seq<Stored>)
    ensures |Spots(rows)| == |Readable(Opened(rows))|
    ensures forall p | 0 <= p < |Spots(rows)| :: Readable(Opened(rows))[p] == Decode(rows[Spots(rows)[p]].payload)
  {
    if rows != [] {
      var n := |rows| - 1;
      SpotsAreTheSamples(rows[..n]);
      assert Opened(rows) == Opened(rows[..n]) + [Opened(rows)[n]];
      ReadableAppend(Opened(rows[..n]), [Opened(rows)[n]]);
    }
  }

  // Every readable index has a spot.
  lemma {:induction false} SpotOf(rows: seq<Stored>, j: nat) returns (p: nat)
    requires j < |rows| && IsReadable(rows[j])
    ensures p < |Spots(rows)| && Spots(rows)[p] == j
  {
    var n := |rows| - 1;
    if j == n {
      p := |Spots(rows[..n])|;
    } else {
      p := SpotOf(rows[..n], j);
    }
  }

  // The table row under k was written for row i of the log.
  ghost predicate WrittenFor(s: State, k: SampleKey, i: int) {
    && k.collector == s.cfg.collector && k.batchId in s.attempts
    && var a := s.attempts[k.batchId]; k.position < |Spots(a.rows)| && a.start + Spots(a.rows)[k.position] == i
  }

  ghost function Copies(s: State, i: int): set<SampleKey> {
    set k | k in s.table && WrittenFor(s, k, i)
  }

  // The attempts that carried row i and whose insert was committed.
  ghost function Carriers(s: State, i: int): set<string> {
    set id | id in s.attempts && s.attempts[id].hyper.Committed? && Covers(s.attempts[id], i)
  }

  function BatchIds(ks: set<SampleKey>): set<string> {
    set k | k in ks :: k.batchId
  }

  lemma {:induction false} ImageSize(ks: set<SampleKey>)
    requires forall k, l | k in ks && l in ks && k.batchId == l.batchId :: k == l
    ensures |BatchIds(ks)| == |ks|
  {
    if ks != {} {
      var k :| k in ks;
      ImageSize(ks - {k});
      assert BatchIds(ks) == BatchIds(ks - {k}) + {k.batchId};
    }
  }

  lemma {:induction false} SpotsDistinct(rows: seq<Stored>, p: nat, q: nat)
    requires p < |Spots(rows)| && q < |Spots(rows)| && Spots(rows)[p] == Spots(rows)[q]
    ensures p == q
  {
    var n := |rows| - 1;
    if p < |Spots(rows[..n])| && q < |Spots(rows[..n])| {
      SpotsDistinct(rows[..n], p, q);
    }
  }

  // The sample at a spot is the log's row there.
  lemma {:induction false} SpotSample(s: State, id: string, p: nat, i: int)
    requires id in s.attempts && 0 <= Acked(s) && AttemptInv(s, id)
    requires p < |Spots(s.attempts[id].rows)| && s.attempts[id].start + Spots(s.attempts[id].rows)[p] == i
    ensures i < |s.log| && p < |s.attempts[id].batch.samples|
    ensures s.attempts[id].batch.samples[p] == Decode(s.log[i].payload)
  {
    SpotsAreTheSamples(s.attempts[id].rows);
  }

  lemma {:induction false} CoveredSpot(s: State, id: string, i: int) returns (p: nat)
    requires id in s.attempts && 0 <= Acked(s) && AttemptInv(s, id)
    requires Covers(s.attempts[id], i) && IsReadable(s.log[i])
    ensures p < |Spots(s.attempts[id].rows)| && s.attempts[id].start + Spots(s.attempts[id].rows)[p] == i
  {
    p := SpotOf(s.attempts[id].rows, i - s.attempts[id].start);
  }

  lemma {:induction false} CopyOf(s: State, id: string, i: int) returns (k: SampleKey)
    requires Inv(s) && id in s.attempts && Covers(s.attempts[id], i) && IsReadable(s.log[i])
    ensures k.batchId == id && WrittenFor(s, k, i)
    ensures k in s.table <==> s.attempts[id].hyper.Committed?
  {
    assert AttemptInv(s, id);
    var p := CoveredSpot(s, id, i);
    SpotSample(s, id, p, i);
    k := KeyAt(s.attempts[id].batch, p);
    assert KeyInv(s, k);
  }

  // What a copy of row i goes by: its attempt and its key are in order.
  ghost predicate CopyInv(s: State, k: SampleKey, i: int) {
    0 <= Acked(s) && k in Copies(s, i) && AttemptInv(s, k.batchId) && KeyInv(s, k)
  }

  // A copy sits at a spot of its attempt, under that spot's key.
  lemma {:induction false} CopyPosition(s: State, k: SampleKey, i: int)
    requires CopyInv(s, k, i)
    ensures k.batchId in Carriers(s, i)
    ensures var a := s.attempts[k.batchId];
            && k.position < |Spots(a.rows)| == |a.batch.samples| && a.start + Spots(a.rows)[k.position] == i
            && k == KeyAt(a.batch, k.position)
  {
    SpotsAreTheSamples(s.attempts[k.batchId].rows);
  }

  lemma {:induction false} OneCopyEach(s: State, k: SampleKey, l: SampleKey, i: int)
    requires CopyInv(s, k, i) && CopyInv(s, l, i) && k.batchId == l.batchId
    ensures l == k
  {
    CopyPosition(s, k, i);
    CopyPosition(s, l, i);
    SpotsDistinct(s.attempts[k.batchId].rows, k.position, l.position);
  }

  lemma {:induction false} CopyContents(s: State, k: SampleKey, i: int)
    requires CopyInv(s, k, i)
    ensures 0 <= i < |s.log| && StoredAt(s, k, Decode(s.log[i].payload))
  {
    CopyPosition(s, k, i);
    SpotSample(s, k.batchId, k.position, i);
  }

  // A sample has exactly as many rows in the table as there were POSTs that
  // carried it and whose insert was committed.
  lemma {:induction false} ExactMultiplicity(s0: State, es: seq<Event>, s: State, i: nat)
    requires Init(s0) && Runs(s0, es, s)
    requires i < |s.log| && IsReadable(s.log[i])
    ensures |Copies(s, i)| == |Carriers(s, i)|
    ensures forall k | k in Copies(s, i) :: StoredAt(s, k, Decode(s.log[i].payload))
  {
    RunInv(s0, es, s);
    forall k | k in Copies(s, i) ensures CopyInv(s, k, i) {
      assert AttemptInv(s, k.batchId) && KeyInv(s, k);
    }
    forall k | k in Copies(s, i)
      ensures StoredAt(s, k, Decode(s.log[i].payload)) && k.batchId in Carriers(s, i)
    {
      CopyPosition(s, k, i);
      CopyContents(s, k, i);
    }
    forall k, l | k in Copies(s, i) && l in Copies(s, i) && k.batchId == l.batchId ensures k == l {
      OneCopyEach(s, k, l, i);
    }
    forall id | id in Carriers(s, i) ensures id in BatchIds(Copies(s, i)) {
      var c := CopyOf(s, id, i);
      assert c in Copies(s, i);
    }
    assert BatchIds(Copies(s, i)) == Carriers(s, i);
    ImageSize(Copies(s, i));
  }

  // With hypertable writes switched off no run stores anything, so rows that
  // leave the buffer are gone.
  lemma {:induction false} HypertableOffStoresNothing(s0: State, es: seq<Event>, s: State)
    requires Runs(s0, es, s) && !s0.cfg.writeHypertable
    ensures s.table == s0.table
    decreases es
  {
    if es != [] {
      HypertableOffStoresNothing(Apply(s0, es[0]), es[1..], s);
    }
  }

  lemma {:induction false} RunsOneMore(s0: State, es: seq<Event>, s: State, e: Event)
    requires Runs(s0, es, s) && Enabled(s, e)
    ensures Runs(s0, es + [e], Apply(s, e))
    ensures !e.Enqueue? ==> Offered(es + [e]) == Offered(es)
    decreases es
  {
    if es == [] {
      assert es + [e] == [e];
      assert [e][1..] == [];
    } else {
      RunsOneMore(Apply(s0, es[0]), es[1..], s, e);
      assert (es + [e])[1..] == es[1..] + [e];
    }
  }

  lemma FirstEvent(s0: State, e: Event)
    requires Enabled(s0, e)
    ensures Runs(s0, [e], Apply(s0, e)) && Offered([e]) == OfferedBy(e)
  {
    assert [e][1..] == [];
    assert OfferedBy(e) + [] == OfferedBy(e);
  }

  // ------------------------------------- the forwarder's loop is such a run

  lemma {:induction false} Step(s0: State, es: seq<Event>, s: State, e: Event) returns (es': seq<Event>, t: State)
    requires Runs(s0, es, s) && Enabled(s, e)
    ensures Runs(s0, es', t) && t == Apply(s, e)
    ensures !e.Enqueue? ==> Offered(es') == Offered(es)
  {
    RunsOneMore(s0, es, s, e);
    es', t := es + [e], Apply(s, e);
  }

  // The acknowledgement of what the forwarder holds, or its failure.
  lemma {:induction false} AckStep(s0: State, es: seq<Event>, s: State, ack: TxFault)
    returns (es': seq<Event>, t: State)
    requires Runs(s0, es, s) && s.phase.Acking?
    ensures Runs(s0, es', t) && Offered(es') == Offered(es)
    ensures t == s.(phase := Idle, rows := if AckOk(|s.phase.rows|, ack) then Without(s.rows, IdSet(Ids(s.phase.rows)))
                                           else s.rows)
  {
    es', t := Step(s0, es, s, if AckOk(|s.phase.rows|, ack) then Ack else AckFails);
  }

  function HeldWindow(rows: seq<Stored>): seq<Stored> {
    rows[..Min(BATCH_SIZE, |rows|)]
  }

  // heron takes a posted batch, commits both writes and answers; the forwarder
  // learns of it.
  lemma {:induction false} AcceptSteps(s0: State, es: seq<Event>, s: State, id: string)
    returns (es': seq<Event>, t: State)
    requires Runs(s0, es, s) && s.phase.Posted? && s.phase.id == id && id in s.attempts
    requires s.attempts[id].answer.Unanswered? && s.attempts[id].hyper.Untried? && s.attempts[id].freshness.Untried?
    ensures Runs(s0, es', t) && Offered(es') == Offered(es) && t.phase == Acking(s.phase.rows)
    ensures t.rows == s.rows && t.log == s.log && t.lastId == s.lastId && t.cfg == s.cfg
    ensures t.attempts.Keys == s.attempts.Keys && t.attempts[id].batch == s.attempts[id].batch
    ensures t.table == if s.cfg.writeHypertable then Insert(s.table, s.attempts[id].batch, 0) else s.table
  {
    es', t := es, s;
    if s.cfg.writeHypertable {
      es', t := Step(s0, es', t, WriteSamples(id, 0, Committed(true)));
    }
    es', t := Step(s0, es', t, WriteFreshness(id, Committed(true)));
    es', t := Step(s0, es', t, Reply(id));
    es', t := Step(s0, es', t, Learn2xx);
  }

  lemma {:induction false} Offering(s0: State, x: Sample) returns (es: seq<Event>, t: State)
    requires Init(s0) && s0.rows == [] && Encodable(x)
    ensures Runs(s0, es, t) && Offered(es) == [x] && t.phase.Idle? && t.attempts == map[]
    ensures t.cfg == s0.cfg && t.table == s0.table && t.log == t.rows && |t.rows| == 1 && t.rows[0].payload == Json(x)
  {
    es, t := [Enqueue([x])], Apply(s0, Enqueue([x]));
    FirstEvent(s0, Enqueue([x]));
  }

  // With hypertable writes off a run exists that loses a sample: it is offered,
  // posted, answered 2xx and deleted.
  lemma {:induction false} HypertableOffLosesASample(s0: State, x: Sample, id: string)
    returns (es: seq<Event>, t: State)
    requires Init(s0) && s0.rows == [] && !s0.cfg.writeHypertable && FreshId(s0, id)
    requires Encodable(x) && x.asset != ""
    ensures Runs(s0, es, t) && Offered(es) == [x] && t.rows == [] && t.table == s0.table
  {
    es, t := Offering(s0, x);
    assert t.rows[..1] == t.rows && Opened(t.rows)[0].sample == x;
    ReadableContents(Opened(t.rows), x);
    es, t := Step(s0, es, t, Drain);
    es, t := Step(s0, es, t, Post(id));
    es, t := AcceptSteps(s0, es, t, id);
    AckRemovesExactlyThePrefix(t.rows, 1);
    es, t := AckStep(s0, es, t, NoTxFault);
  }

  lemma {:induction false} InsertKeepsFresh(s: State, t: State, b: Batch, other: string)
    requires FreshId(s, other) && b.batchId != other && other !in t.attempts && t.cfg == s.cfg
    requires t.table == s.table || t.table == Insert(s.table, b, 0)
    ensures FreshId(t, other)
  {
    forall k | k in t.table && k.collector == t.cfg.collector ensures k.batchId != other {
      InsertAddsOnly(s.table, b, 0, 0, k);
    }
  }

  // A pipeline state that looks to the forwarder like its loop's state.
  ghost predicate Mirrors(s: State, l: Loop, site: string, collector: string) {
    && BufferInv(s) && s.phase.Idle? && s.rows == l.rows && s.cfg.site == site && s.cfg.collector == collector
  }

  function TurnId(l: Loop, c: Cycle): string
    requires ValidCycle(c)
  {
    AttemptId(if l.batchId == "" then c.processId else l.batchId, c.attempt)
  }

  // What a turn does to the pipeline: its rows, and its batch under its id.
  ghost predicate TurnDone(s: State, t: State, l: Loop, site: string, collector: string, c: Cycle)
    requires JitterRange(l.backoff) > 0 && ValidCycle(c)
  {
    && t.phase.Idle? && t.log == s.log && t.lastId == s.lastId && t.cfg == s.cfg
    && t.rows == Turn(l, site, collector, c).rows
    && t.attempts.Keys == s.attempts.Keys + (if Sends(l.rows, c) then {TurnId(l, c)} else {})
    && (Sends(l.rows, c) ==> t.attempts[TurnId(l, c)].batch == TurnBatch(l, site, collector, c))
    && (t.table == s.table || t.table == Insert(s.table, TurnBatch(l, site, collector, c), 0))
  }

  lemma WindowAck(rows: seq<Stored>)
    ensures Opened(HeldWindow(rows)) == Window(rows)
    ensures Ids(HeldWindow(rows)) == RowIds(Window(rows))
  {
  }

  // Every turn of the forwarder's loop is a run of the pipeline.
  lemma {:induction false} TurnIsARun(s: State, l: Loop, site: string, collector: string, c: Cycle)
    returns (es: seq<Event>, t: State)
    requires JitterRange(l.backoff) > 0 && ValidCycle(c)
    requires Mirrors(s, l, site, collector) && FreshId(s, TurnId(l, c))
    ensures Runs(s, es, t) && TurnDone(s, t, l, site, collector, c)
  {
    es, t := [], s;
    if DrainOk(l.rows, c.read) && l.rows != [] {
      WindowAck(l.rows);
      es, t := Step(s, es, t, Drain);
      if Readable(Window(l.rows)) == [] {
        es, t := Step(s, es, t, SkipUnreadable);
        es, t := AckStep(s, es, t, c.ack);
      } else {
        HeadMarshals(s);
        es, t := SendSteps(s, es, t, l, site, collector, c);
      }
    }
  }

  lemma {:induction false} HeadMarshals(s: State)
    requires BufferInv(s)
    ensures Marshals(Readable(Window(s.rows)))
  {
    forall i | 0 <= i < |s.rows| ensures Encodable(Decode(s.rows[i].payload)) {
      assert s.log[Acked(s) + i] == s.rows[i];
      assert s.rows[i] in s.log;
    }
    ReadableMarshals(Window(s.rows));
  }

  lemma {:induction false} SendSteps(s0: State, es0: seq<Event>, s: State, l: Loop, site: string, collector: string,
                                     c: Cycle)
    returns (es: seq<Event>, t: State)
    requires JitterRange(l.backoff) > 0 && ValidCycle(c) && Runs(s0, es0, s) && Mirrors(s0, l, site, collector)
    requires s == s0.(phase := Phase.Drained(HeldWindow(l.rows))) && FreshId(s0, TurnId(l, c))
    requires Sends(l.rows, c)
    ensures Runs(s0, es, t) && TurnDone(s0, t, l, site, collector, c)
  {
    var id := TurnId(l, c);
    WindowAck(l.rows);
    es, t := Step(s0, es0, s, Post(id));
    assert t.attempts[id].batch == TurnBatch(l, site, collector, c);
    if Is2xx(c.reply) {
      es, t := AcceptSteps(s0, es, t, id);
      es, t := AckStep(s0, es, t, c.ack);
    } else {
      es, t := Step(s0, es, t, GiveUp);
    }
  }

  lemma {:induction false} TurnKeepsMirror(s: State, t: State, l: Loop, site: string, collector: string, c: Cycle)
    requires JitterRange(l.backoff) > 0 && ValidCycle(c)
    requires Mirrors(s, l, site, collector) && TurnDone(s, t, l, site, collector, c)
    ensures Mirrors(t, Turn(l, site, collector, c), site, collector)
  {
    assert Ascending(s.rows);
    TurnRows(l, site, collector, c);
  }

  // The id that turn k of the script gives its batch.
  function IdOfTurn(l: Loop, site: string, collector: string, script: seq<Cycle>, k: nat): string
    requires BackoffInRange(l.backoff) && k < |script| && forall c | c in script :: ValidCycle(c)
  {
    TurnId(After(l, site, collector, script[..k]), script[k])
  }

  ghost predicate UnusedIn(l: Loop, site: string, collector: string, script: seq<Cycle>, id: string)
    requires BackoffInRange(l.backoff) && forall c | c in script :: ValidCycle(c)
  {
    forall k | 0 <= k < |script| :: IdOfTurn(l, site, collector, script, k) != id
  }

  // No id is used twice in the script, and none was used before.
  ghost predicate FreshScript(s: State, l: Loop, site: string, collector: string, script: seq<Cycle>)
    requires BackoffInRange(l.backoff) && forall c | c in script :: ValidCycle(c)
  {
    forall k | 0 <= k < |script| ::
      && FreshId(s, IdOfTurn(l, site, collector, script, k))
      && UnusedIn(l, site, collector, script[..k], IdOfTurn(l, site, collector, script, k))
  }

  lemma FreshScriptInit(s: State, l: Loop, site: string, collector: string, script: seq<Cycle>)
    requires BackoffInRange(l.backoff) && forall c | c in script :: ValidCycle(c)
    requires script != [] && FreshScript(s, l, site, collector, script)
    ensures var n := |script| - 1; var id := TurnId(After(l, site, collector, script[..n]), script[n]);
            && FreshScript(s, l, site, collector, script[..n])
            && FreshId(s, id) && UnusedIn(l, site, collector, script[..n], id)
  {
    var n := |script| - 1;
    forall k | 0 <= k < n
      ensures IdOfTurn(l, site, collector, script[..n], k) == IdOfTurn(l, site, collector, script, k)
      ensures script[..n][..k] == script[..k]
    {
      assert script[..n][..k] == script[..k];
    }
    assert IdOfTurn(l, site, collector, script, n) == TurnId(After(l, site, collector, script[..n]), script[n]);
  }

  lemma UnusedInit(l: Loop, site: string, collector: string, script: seq<Cycle>, id: string)
    requires BackoffInRange(l.backoff) && forall c | c in script :: ValidCycle(c)
    requires script != [] && UnusedIn(l, site, collector, script, id)
    ensures var n := |script| - 1;
            && UnusedIn(l, site, collector, script[..n], id)
            && TurnId(After(l, site, collector, script[..n]), script[n]) != id
  {
    var n := |script| - 1;
    assert IdOfTurn(l, site, collector, script, n) != id;
    forall k | 0 <= k < n
      ensures IdOfTurn(l, site, collector, script[..n], k) == IdOfTurn(l, site, collector, script, k)
    {
      assert script[..n][..k] == script[..k];
    }
  }

  lemma {:induction false} RunsTwice(s0: State, a: seq<Event>, s: State, b: seq<Event>, t: State)
    requires Runs(s0, a, s) && Runs(s, b, t)
    ensures Runs(s0, a + b, t)
    decreases |a|
  {
    if a == [] {
      assert a + b == b;
    } else {
      RunsTwice(Apply(s0, a[0]), a[1..], s, b, t);
      assert (a + b)[1..] == a[1..] + b;
    }
  }

  lemma {:induction false} TurnKeepsFresh(s: State, t: State, l: Loop, site: string, collector: string, c: Cycle,
                                          other: string)
    requires JitterRange(l.backoff) > 0 && ValidCycle(c) && TurnDone(s, t, l, site, collector, c)
    requires FreshId(s, other) && other != TurnId(l, c)
    ensures FreshId(t, other)
  {
    InsertKeepsFresh(s, t, TurnBatch(l, site, collector, c), other);
  }

  // Ids that the script does not use stay fresh.
  ghost predicate KeepsFresh(s: State, t: State, l: Loop, site: string, collector: string, script: seq<Cycle>)
    requires BackoffInRange(l.backoff) && forall c | c in script :: ValidCycle(c)
  {
    forall id | FreshId(s, id) && UnusedIn(l, site, collector, script, id) :: FreshId(t, id)
  }

  lemma {:induction false} FreshRuns(s: State, l: Loop, site: string, collector: string, script: seq<Cycle>)
    returns (es: seq<Event>, t: State)
    requires BackoffInRange(l.backoff) && forall c | c in script :: ValidCycle(c)
    requires Mirrors(s, l, site, collector) && FreshScript(s, l, site, collector, script)
    ensures Runs(s, es, t) && Mirrors(t, After(l, site, collector, script), site, collector) && t.log == s.log
    ensures KeepsFresh(s, t, l, site, collector, script)
  {
    es, t := [], s;
    if script != [] {
      FreshScriptInit(s, l, site, collector, script);
      var n := |script| - 1;
      var mid;
      es, mid := FreshRuns(s, l, site, collector, script[..n]);
      var before := After(l, site, collector, script[..n]);
      TurnKeepsBackoff(before, site, collector, script[n]);
      es, t := LastTurn(s, es, mid, before, site, collector, script[n]);
      forall id | FreshId(s, id) && UnusedIn(l, site, collector, script, id) ensures FreshId(t, id) {
        UnusedInit(l, site, collector, script, id);
        TurnKeepsFresh(mid, t, before, site, collector, script[n], id);
      }
    }
  }

  // The process id of a run: the one it has, or else one of those that the
  // script draws.
  predicate MayUse(l: Loop, script: seq<Cycle>, p: string) {
    if l.batchId != "" then p == l.batchId else exists c :: c in script && p == c.processId
  }

  // Neither the pipeline nor an earlier cycle of the script has used what the
  // cycles draw.
  ghost predicate FreshDraws(s: State, l: Loop, script: seq<Cycle>)
    requires forall c | c in script :: ValidCycle(c)
  {
    && (forall i, k | 0 <= i < k < |script| :: !Agree(script[i], script[k]))
    && (forall p, c | MayUse(l, script, p) && c in script && ValidCycle(c) :: FreshId(s, p + "-" + c.attempt[..8]))
  }

  predicate Agree(c: Cycle, d: Cycle)
    requires ValidCycle(c) && ValidCycle(d)
  {
    c.attempt[..8] == d.attempt[..8]
  }

  // Ids that begin like no other are fresh, whatever the attempts.
  lemma UnusedProcessIsFresh(s: State, p: string, attempt: string)
    requires forall id | id in s.attempts :: !(p + "-" <= id)
    requires forall k | k in s.table && k.collector == s.cfg.collector :: !(p + "-" <= k.batchId)
    ensures FreshId(s, p + "-" + attempt)
  {
    assert p + "-" <= p + "-" + attempt;
  }

  // The id of turn k is made of a process id that the run may use.
  lemma {:induction false} ProcessOfTurn(l: Loop, site: string, collector: string, script: seq<Cycle>, k: nat)
    returns (p: string)
    requires BackoffInRange(l.backoff) && (forall c | c in script :: ValidCycle(c)) && GoodProcess(l) && k < |script|
    ensures MayUse(l, script, p) && |p| == 36
    ensures ValidCycle(script[k]) && IdOfTurn(l, site, collector, script, k) == p + "-" + script[k].attempt[..8]
  {
    var before := After(l, site, collector, script[..k]);
    DrawnInScript(l, site, collector, script[..k]);
    assert script[k] in script;
    p := if before.batchId == "" then script[k].processId else before.batchId;
    if l.batchId == "" && before.batchId != "" {
      var c :| c in script[..k] && before.batchId == c.processId;
      assert c in script;
    }
  }

  lemma {:induction false} DrawnInScript(l: Loop, site: string, collector: string, script: seq<Cycle>)
    requires BackoffInRange(l.backoff) && (forall c | c in script :: ValidCycle(c)) && GoodProcess(l)
    ensures var b := After(l, site, collector, script).batchId;
            GoodProcess(After(l, site, collector, script)) && (b != "" || l.batchId != "" ==> MayUse(l, script, b))
  {
    if script != [] {
      var init, c := script[..|script| - 1], script[|script| - 1];
      DrawnInScript(l, site, collector, init);
      TurnKeepsBackoff(After(l, site, collector, init), site, collector, c);
      TurnPosts(After(l, site, collector, init), site, collector, c);
      assert script == init + [c];
    }
  }

  lemma {:induction false} DrawsGiveFreshIds(s: State, l: Loop, site: string, collector: string, script: seq<Cycle>)
    requires BackoffInRange(l.backoff) && (forall c | c in script :: ValidCycle(c)) && GoodProcess(l)
    requires FreshDraws(s, l, script)
    ensures FreshScript(s, l, site, collector, script)
  {
    forall k | 0 <= k < |script|
      ensures FreshId(s, IdOfTurn(l, site, collector, script, k))
      ensures UnusedIn(l, site, collector, script[..k], IdOfTurn(l, site, collector, script, k))
    {
      var p := ProcessOfTurn(l, site, collector, script, k);
      assert script[k] in script;
      forall i | 0 <= i < k
        ensures IdOfTurn(l, site, collector, script[..k], i) != IdOfTurn(l, site, collector, script, k)
      {
        assert script[..k][..i] == script[..i];
        var q := ProcessOfTurn(l, site, collector, script, i);
        assert !Agree(script[i], script[k]);
        AttemptIdsDiffer(q, p, script[i].attempt, script[k].attempt);
      }
    }
  }

  // And every run of the loop whose draws are fresh is a run of the pipeline, so
  // that the theorems about the pipeline hold for what `Run` does.
  lemma {:induction false} LoopIsARun(s: State, l: Loop, site: string, collector: string, script: seq<Cycle>)
    returns (es: seq<Event>, t: State)
    requires BackoffInRange(l.backoff) && (forall c | c in script :: ValidCycle(c)) && GoodProcess(l)
    requires Mirrors(s, l, site, collector) && FreshDraws(s, l, script)
    ensures Runs(s, es, t) && Mirrors(t, After(l, site, collector, script), site, collector) && t.log == s.log
  {
    DrawsGiveFreshIds(s, l, site, collector, script);
    es, t := FreshRuns(s, l, site, collector, script);
  }

  lemma {:induction false} LastTurn(s: State, es: seq<Event>, mid: State, l: Loop, site: string, collector: string,
                                    c: Cycle)
    returns (es': seq<Event>, t: State)
    requires JitterRange(l.backoff) > 0 && ValidCycle(c) && Runs(s, es, mid)
    requires Mirrors(mid, l, site, collector) && FreshId(mid, TurnId(l, c))
    ensures Runs(s, es', t) && TurnDone(mid, t, l, site, collector, c)
    ensures Mirrors(t, Turn(l, site, collector, c), site, collector)
  {
    var more;
    more, t := TurnIsARun(mid, l, site, collector, c);
    RunsTwice(s, es, mid, more, t);
    es' := es + more;
    TurnKeepsMirror(mid, t, l, site, collector, c);
  }

  // --------------------------------------- heron's handler is such a run

  function WriteOf(exec: ExecResult): Write {
    match exec
    case ExecOk => Committed(true)
    case ExecFailed => Failed
    case ExecLost => Committed(false)
  }

  function UpsertOf(b: Batch, fault: UpsertFault): Write {
    if UpsertSucceeds(b, fault) then Committed(true) else if fault == UpsertCommitLost then Committed(false) else Failed
  }

  function AnswerOf(status: int): Answer {
    if status == 200 then Accepted else if status == 502 then ServerError else ClientError
  }

  // A request that reaches heron is handled in steps of the pipeline: they leave
  // the table that the handler leaves, and answer as it does.
  lemma {:induction false} IngestIsARun(s0: State, es: seq<Event>, s: State, id: string, req: Request,
                                        sources: SourceTable, receivedAt: int, exec: ExecResult, fault: UpsertFault)
    returns (es': seq<Event>, t: State)
    requires Runs(s0, es, s) && id in s.attempts && req.body == Some(s.attempts[id].batch)
    requires s.attempts[id].answer.Unanswered? && s.attempts[id].hyper.Untried? && s.attempts[id].freshness.Untried?
    ensures Runs(s0, es', t)
    ensures var r := Ingested(s.table, sources, s.cfg.writeHypertable, req, receivedAt, exec, fault);
            && t.table == r.samples && t.attempts.Keys == s.attempts.Keys
            && t.attempts[id].answer == AnswerOf(r.status)
            && (t.attempts[id].freshness.Committed? <==>
                  Refusal(req).None? && UpsertCommits(s.attempts[id].batch, fault))
            && (t.attempts[id].hyper.Committed? <==>
                  Refusal(req).None? && s.cfg.writeHypertable && !exec.ExecFailed?)
    ensures t.rows == s.rows && t.log == s.log && t.phase == s.phase
  {
    if Refusal(req).Some? {
      es', t := Step(s0, es, s, Refuse(id));
    } else {
      es', t := WriteSteps(s0, es, s, id, receivedAt, WriteOf(exec), UpsertOf(s.attempts[id].batch, fault));
    }
  }

  // Both writes, with these results, and the reply.
  lemma {:induction false} WriteSteps(s0: State, es: seq<Event>, s: State, id: string, receivedAt: int, w: Write,
                                      f: Write)
    returns (es': seq<Event>, t: State)
    requires Runs(s0, es, s) && id in s.attempts && !w.Untried? && !f.Untried?
    requires s.attempts[id].answer.Unanswered? && s.attempts[id].hyper.Untried? && s.attempts[id].freshness.Untried?
    ensures Runs(s0, es', t)
    ensures var a := s.attempts[id]; var hyper := if s.cfg.writeHypertable then w else Untried;
            && t.attempts == s.attempts[id := a.(hyper := hyper, freshness := f,
                                                 answer := if Errs(hyper) || Errs(f) then ServerError else Accepted)]
            && t.table == (if hyper.Committed? then Insert(s.table, a.batch, receivedAt) else s.table)
    ensures t.rows == s.rows && t.log == s.log && t.phase == s.phase
  {
    es', t := es, s;
    if s.cfg.writeHypertable {
      es', t := Step(s0, es', t, WriteSamples(id, receivedAt, w));
    }
    es', t := Step(s0, es', t, WriteFreshness(id, f));
    es', t := Step(s0, es', t, Reply(id));
  }

  // ------------------------------------------------------------ duplicates

  // Carried by one more: the attempt that has just been made.
  lemma CarriedOnceMore(s: State, t: State, id: string)
    requires id !in s.attempts && t.attempts.Keys == s.attempts.Keys + {id}
    requires forall k | k in s.attempts :: t.attempts[k] == s.attempts[k]
    ensures Carriers(t, 0) == Carriers(s, 0) +
                              (if t.attempts[id].hyper.Committed? && Covers(t.attempts[id], 0) then {id} else {})
  {
  }

  // One POST whose insert is committed and whose reply never arrives.
  lemma {:induction false} DeliveredOnce(s0: State, es: seq<Event>, s: State, x: Sample, id: string)
    returns (es': seq<Event>, t: State)
    requires Runs(s0, es, s) && s.phase.Idle? && s.cfg.writeHypertable && FreshId(s, id)
    requires |s.rows| == 1 && s.log == s.rows && s.rows[0].payload == Json(x) && x.asset != ""
    ensures Runs(s0, es', t) && Offered(es') == Offered(es)
    ensures t.phase.Idle? && t.cfg == s.cfg && t.rows == s.rows && t.log == s.log
    ensures t.table == Insert(s.table, BatchFor(Opened(s.rows), s.cfg.site, s.cfg.collector, id), 0)
    ensures t.attempts.Keys == s.attempts.Keys + {id} && Carriers(t, 0) == Carriers(s, 0) + {id}
  {
    assert s.rows[..1] == s.rows;
    ReadableContents(Opened(s.rows), x);
    assert Opened(s.rows)[0].sample == x;
    es', t := Step(s0, es, s, Drain);
    es', t := Step(s0, es', t, Post(id));
    es', t := Step(s0, es', t, WriteSamples(id, 0, Committed(true)));
    es', t := Step(s0, es', t, GiveUp);
    CarriedOnceMore(s, t, id);
  }

  // A sample can be stored twice: its POST is processed, the reply is lost, and
  // the row goes out again under another id.
  lemma {:induction false} LostReplyDuplicates(s0: State, x: Sample, one: string, two: string)
    returns (es: seq<Event>, t: State)
    requires Init(s0) && s0.rows == [] && s0.cfg.writeHypertable && FreshId(s0, one) && FreshId(s0, two) && one != two
    requires Encodable(x) && x.asset != ""
    ensures Runs(s0, es, t) && Offered(es) == [x] && |t.log| == 1 && IsReadable(t.log[0]) && |Copies(t, 0)| == 2
  {
    es, t := Offering(s0, x);
    var b := BatchFor(Opened(t.rows), t.cfg.site, t.cfg.collector, one);
    var s1 := t;
    es, t := DeliveredOnce(s0, es, s1, x, one);
    InsertKeepsFresh(s1, t, b, two);
    es, t := DeliveredOnce(s0, es, t, x, two);
    ExactMultiplicity(s0, es, t, 0);
    assert Carriers(t, 0) == {one, two};
  }
}
