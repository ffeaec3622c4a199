// Rules evaluated concurrently: their transactions interleave with each other
// and with operators who move alerts out of the firing state.
module AlertRuns {
  import opened Alerts

  // An open transaction and the statement it issued for each reading so far.
  datatype Tx = Tx(job: Job, log: seq<Write>)

  // Committed alerts, and the open transaction of each rule that has one.
  datatype State = State(alerts: Table, open: map<string, Tx>)

  // A rule has one transaction at a time, since a pass waits for all of its
  // rules. ReadNext is one turn of the loop over the readings; CloseAlert is
  // an operator's write, which does not ask what state the alert is in.
  datatype Step =
    | Begin(job: Job)
    | ReadNext(rule: string)
    | Commit(rule: string)
    | Abort(rule: string)
    | CloseAlert(key: string, row: nat)

  ghost predicate Enabled(s: State, e: Step) {
    match e
    case Begin(j) => ValidJob(j) && j.rule.id !in s.open
    case ReadNext(id) =>
      id in s.open && |s.open[id].log| < |s.open[id].job.readings| && s.open[id].job.rule.op in OPERATORS
    case Commit(id) => id in s.open && |s.open[id].log| == |s.open[id].job.readings|
    case Abort(id) => id in s.open
    case CloseAlert(key, row) => row < |Rows(s.alerts, key)|
  }

  // A table after the statements of one transaction.
  function Applied(t: Table, j: Job, log: seq<Write>): Table
    requires |log| <= |j.readings|
  {
    if log == [] then t
    else
      var n := |log| - 1;
      Put(Applied(t, j, log[..n]), KeyOf(j, j.readings[n]), log[n])
  }

  function CloseRow(rows: seq<Alert>, row: nat): seq<Alert>
    requires row < |rows|
  {
    rows[row := rows[row].(state := Closed)]
  }

  // A transaction sees what is committed and its own statements.
  ghost function Next(s: State, e: Step): State
    requires Enabled(s, e)
  {
    match e
    case Begin(j) => s.(open := s.open[j.rule.id := Tx(j, [])])
    case ReadNext(id) =>
      var tx := s.open[id];
      var r := tx.job.readings[|tx.log|];
      var w := Decide(Rows(Applied(s.alerts, tx.job, tx.log), KeyOf(tx.job, r)), tx.job, r);
      s.(open := s.open[id := tx.(log := tx.log + [w])])
    case Commit(id) => State(Applied(s.alerts, s.open[id].job, s.open[id].log), s.open - {id})
    case Abort(id) => s.(open := s.open - {id})
    case CloseAlert(key, row) => s.(alerts := s.alerts[key := CloseRow(Rows(s.alerts, key), row)])
  }

  ghost predicate Runs(s: State, es: seq<Step>)
    decreases |es|, 0
  {
    es == [] || (Runs(s, es[..|es| - 1]) && Enabled(Final(s, es[..|es| - 1]), es[|es| - 1]))
  }

  ghost function Final(s: State, es: seq<Step>): State
    requires Runs(s, es)
    decreases |es|, 1
  {
    if es == [] then s else Next(Final(s, es[..|es| - 1]), es[|es| - 1])
  }

  // ------------------------------------------------------- one transaction

  lemma {:induction false} AppliedUnread(t: Table, j: Job, log: seq<Write>, key: string)
    requires |log| <= |j.readings| && !Reads(j, key, |log|)
    ensures Rows(Applied(t, j, log), key) == Rows(t, key)
  {
    if log != [] {
      var n := |log| - 1;
      assert KeyOf(j, j.readings[n]) != key;
      assert forall i | 0 <= i < n :: KeyOf(j, j.readings[i]) != key;
      AppliedUnread(t, j, log[..n], key);
    }
  }

  // Under the key of a reading, a transaction's effect is that reading's
  // statement, applied to the rows that are there.
  lemma {:induction false} AppliedAt(t: Table, j: Job, log: seq<Write>, i: nat, key: string)
    requires ValidJob(j) && i < |log| <= |j.readings| && key == KeyOf(j, j.readings[i])
    ensures Rows(Applied(t, j, log), key) == WriteRows(Rows(t, key), log[i])
  {
    var n := |log| - 1;
    if i == n {
      forall k | 0 <= k < n ensures KeyOf(j, j.readings[k]) != key {
        KeysDistinct(j, k, n);
      }
      AppliedUnread(t, j, log[..n], key);
    } else {
      KeysDistinct(j, i, n);
      AppliedAt(t, j, log[..n], i, key);
    }
  }

  // --------------------------------------------------------------- safety

  ghost predicate OneFiring(t: Table) {
    forall key: string :: AtMostOneFiring(Rows(t, key))
  }

  // What stays true of a statement until it takes effect, whatever operators
  // do meanwhile: an insert still finds nothing firing, and the row that an
  // update names is the only one that can be firing.
  ghost predicate PendingOk(rows: seq<Alert>, j: Job, r: Reading, w: Write) {
    && (w.Insert? ==> !HasFiring(rows) && w.alert.state == Firing && MayFire(j, r))
    && (w.Touch? || w.Resolve? ==>
          w.row < |rows| && forall k | 0 <= k < |rows| && k != w.row :: rows[k].state != Firing)
  }

  // The reading violates its rule, the rule has a site scope, and no
  // maintenance window of the site covers the evaluation.
  ghost predicate MayFire(j: Job, r: Reading) {
    && j.rule.op in OPERATORS && Compare(j.rule.op, r.value, j.rule.threshold)
    && j.rule.site.Some? && !Suppressed(r.windows, j.rule.site.value, j.now)
  }

  ghost predicate TxOk(t: Table, id: string, tx: Tx) {
    && tx.job.rule.id == id && ValidJob(tx.job) && |tx.log| <= |tx.job.readings|
    && forall i | 0 <= i < |tx.log| ::
         PendingOk(Rows(t, KeyOf(tx.job, tx.job.readings[i])), tx.job, tx.job.readings[i], tx.log[i])
  }

  ghost predicate Inv(s: State) {
    OneFiring(s.alerts) && forall id | id in s.open :: TxOk(s.alerts, id, s.open[id])
  }

  lemma DecideIsPending(rows: seq<Alert>, j: Job, r: Reading)
    requires j.rule.op in OPERATORS && AtMostOneFiring(rows)
    ensures PendingOk(rows, j, r, Decide(rows, j, r))
  {
  }

  lemma PendingKeepsOneFiring(rows: seq<Alert>, j: Job, r: Reading, w: Write)
    requires AtMostOneFiring(rows) && PendingOk(rows, j, r, w)
    ensures AtMostOneFiring(WriteRows(rows, w))
  {
  }

  lemma ClosePending(rows: seq<Alert>, row: nat, j: Job, r: Reading, w: Write)
    requires row < |rows| && PendingOk(rows, j, r, w)
    ensures PendingOk(CloseRow(rows, row), j, r, w)
  {
    if w.Insert? {
      assert forall k | 0 <= k < |rows| :: CloseRow(rows, row)[k].state != Firing;
    }
  }

  lemma {:induction false} CommitKeepsOneFiring(s: State, id: string, key: string)
    requires Inv(s) && Enabled(s, Commit(id))
    ensures AtMostOneFiring(Rows(Next(s, Commit(id)).alerts, key))
  {
    var tx := s.open[id];
    assert TxOk(s.alerts, id, tx);
    if i :| 0 <= i < |tx.log| && KeyOf(tx.job, tx.job.readings[i]) == key {
      AppliedAt(s.alerts, tx.job, tx.log, i, key);
      PendingKeepsOneFiring(Rows(s.alerts, key), tx.job, tx.job.readings[i], tx.log[i]);
    } else {
      AppliedUnread(s.alerts, tx.job, tx.log, key);
    }
  }

  // A commit leaves the rows under the keys of every other open rule alone.
  lemma {:induction false} CommitElsewhere(s: State, id: string, other: string, i: nat)
    requires Inv(s) && Enabled(s, Commit(id)) && other in s.open && other != id && i < |s.open[other].log|
    ensures var key := KeyOf(s.open[other].job, s.open[other].job.readings[i]);
            Rows(Next(s, Commit(id)).alerts, key) == Rows(s.alerts, key)
  {
    var tx, o := s.open[id], s.open[other];
    assert TxOk(s.alerts, id, tx) && TxOk(s.alerts, other, o);
    var key := KeyOf(o.job, o.job.readings[i]);
    KeysDisjoint(tx.job, o.job, key);
    assert Reads(o.job, key, |o.job.readings|);
    AppliedUnread(s.alerts, tx.job, tx.log, key);
  }

  lemma {:induction false} CommitInv(s: State, id: string)
    requires Inv(s) && Enabled(s, Commit(id))
    ensures Inv(Next(s, Commit(id)))
  {
    var next := Next(s, Commit(id));
    forall key: string ensures AtMostOneFiring(Rows(next.alerts, key)) {
      CommitKeepsOneFiring(s, id, key);
    }
    forall other | other in next.open ensures TxOk(next.alerts, other, next.open[other]) {
      assert TxOk(s.alerts, other, s.open[other]);
      forall i | 0 <= i < |s.open[other].log|
        ensures PendingOk(Rows(next.alerts, KeyOf(s.open[other].job, s.open[other].job.readings[i])), s.open[other].job,
                  s.open[other].job.readings[i], s.open[other].log[i])
      {
        CommitElsewhere(s, id, other, i);
      }
    }
  }

  lemma {:induction false} ReadInv(s: State, id: string)
    requires Inv(s) && Enabled(s, ReadNext(id))
    ensures Inv(Next(s, ReadNext(id)))
  {
    var tx := s.open[id];
    assert TxOk(s.alerts, id, tx);
    var r := tx.job.readings[|tx.log|];
    NextKeyUnread(tx);
    AppliedUnread(s.alerts, tx.job, tx.log, KeyOf(tx.job, r));
    DecideIsPending(Rows(s.alerts, KeyOf(tx.job, r)), tx.job, r);
    var next := Next(s, ReadNext(id));
    assert TxOk(next.alerts, id, next.open[id]);
  }

  lemma {:induction false} NextKeyUnread(tx: Tx)
    requires ValidJob(tx.job) && |tx.log| < |tx.job.readings|
    ensures !Reads(tx.job, KeyOf(tx.job, tx.job.readings[|tx.log|]), |tx.log|)
  {
    forall k | 0 <= k < |tx.log| ensures KeyOf(tx.job, tx.job.readings[k]) != KeyOf(tx.job, tx.job.readings[|tx.log|]) {
      KeysDistinct(tx.job, k, |tx.log|);
    }
  }

  lemma {:induction false} CloseInv(s: State, key: string, row: nat)
    requires Inv(s) && Enabled(s, CloseAlert(key, row))
    ensures Inv(Next(s, CloseAlert(key, row)))
  {
    var next := Next(s, CloseAlert(key, row));
    forall k: string ensures AtMostOneFiring(Rows(next.alerts, k)) {
      assert AtMostOneFiring(Rows(s.alerts, k));
    }
    forall id | id in next.open ensures TxOk(next.alerts, id, next.open[id]) {
      var tx := s.open[id];
      assert TxOk(s.alerts, id, tx);
      forall i | 0 <= i < |tx.log|
        ensures PendingOk(Rows(next.alerts, KeyOf(tx.job, tx.job.readings[i])), tx.job, tx.job.readings[i], tx.log[i])
      {
        if KeyOf(tx.job, tx.job.readings[i]) == key {
          ClosePending(Rows(s.alerts, key), row, tx.job, tx.job.readings[i], tx.log[i]);
        }
      }
    }
  }

  lemma {:induction false} StepInv(s: State, e: Step)
    requires Inv(s) && Enabled(s, e)
    ensures Inv(Next(s, e))
  {
    match e
    case Begin(_) =>
    case ReadNext(id) => ReadInv(s, id);
    case Commit(id) => CommitInv(s, id);
    case Abort(_) =>
    case CloseAlert(key, row) => CloseInv(s, key, row);
  }

  // In every reachable state each key has at most one firing alert.
  lemma {:induction false} AtMostOneFiringAlways(t: Table, es: seq<Step>)
    requires OneFiring(t) && Runs(State(t, map[]), es)
    ensures Inv(Final(State(t, map[]), es))
    ensures OneFiring(Final(State(t, map[]), es).alerts)
    decreases es
  {
    if es != [] {
      AtMostOneFiringAlways(t, es[..|es| - 1]);
      StepInv(Final(State(t, map[]), es[..|es| - 1]), es[|es| - 1]);
    }
  }

  lemma WriteGrows(rows: seq<Alert>, j: Job, r: Reading, w: Write)
    requires PendingOk(rows, j, r, w)
    ensures Grown(rows, WriteRows(rows, w))
    ensures |WriteRows(rows, w)| > |rows| ==> w.Insert? && WriteRows(rows, w)[|rows|] == w.alert
  {
  }

  ghost predicate Grown(before: seq<Alert>, after: seq<Alert>) {
    && |before| <= |after| <= |before| + 1
    && forall k | 0 <= k < |before| :: after[k].id == before[k].id && after[k].firstSeen == before[k].firstSeen
  }

  ghost predicate MayFireUnder(j: Job, key: string) {
    exists i :: 0 <= i < |j.readings| && KeyOf(j, j.readings[i]) == key && MayFire(j, j.readings[i])
  }

  // A step adds a row only under the key of a reading that may fire, with
  // nothing firing there, and never removes or renames one.
  lemma {:induction false} RowsOnlyGrow(s: State, e: Step, key: string)
    requires Inv(s) && Enabled(s, e)
    ensures var before, after := Rows(s.alerts, key), Rows(Next(s, e).alerts, key);
            && Grown(before, after)
            && (|after| > |before| ==>
                  && e.Commit? && MayFireUnder(s.open[e.rule].job, key)
                  && !HasFiring(before) && after[|before|].state == Firing)
  {
    if e.Commit? {
      var tx := s.open[e.rule];
      assert TxOk(s.alerts, e.rule, tx);
      if i :| 0 <= i < |tx.log| && KeyOf(tx.job, tx.job.readings[i]) == key {
        AppliedAt(s.alerts, tx.job, tx.log, i, key);
        WriteGrows(Rows(s.alerts, key), tx.job, tx.job.readings[i], tx.log[i]);
      } else {
        AppliedUnread(s.alerts, tx.job, tx.log, key);
      }
    }
  }

  // ------------------------------------------------------- serialisability

  // Every statement of an open transaction is what a fresh look would decide.
  ghost predicate TxCurrent(t: Table, tx: Tx) {
    && ValidJob(tx.job) && |tx.log| <= |tx.job.readings|
    && forall i | 0 <= i < |tx.log| ::
         tx.log[i] == Decide(Rows(t, KeyOf(tx.job, tx.job.readings[i])), tx.job, tx.job.readings[i])
  }

  ghost predicate Current(s: State) {
    forall id | id in s.open :: TxCurrent(s.alerts, s.open[id])
  }

  lemma {:induction false} StepCurrent(s: State, e: Step)
    requires Inv(s) && Current(s) && Enabled(s, e) && !e.CloseAlert?
    ensures Current(Next(s, e))
  {
    var next := Next(s, e);
    match e
    case Begin(_) =>
    case ReadNext(id) =>
      var tx := s.open[id];
      assert TxOk(s.alerts, id, tx) && TxCurrent(s.alerts, tx);
      NextKeyUnread(tx);
      AppliedUnread(s.alerts, tx.job, tx.log, KeyOf(tx.job, tx.job.readings[|tx.log|]));
      assert TxCurrent(next.alerts, next.open[id]);
    case Commit(id) =>
      forall other | other in next.open ensures TxCurrent(next.alerts, next.open[other]) {
        var tx := s.open[other];
        assert TxCurrent(s.alerts, tx);
        forall i | 0 <= i < |tx.log|
          ensures var key := KeyOf(tx.job, tx.job.readings[i]); Rows(next.alerts, key) == Rows(s.alerts, key)
        {
          CommitElsewhere(s, id, other, i);
        }
      }
    case Abort(_) =>
  }

  // Without operators' writes a commit does what evaluating the rule in one go
  // at that moment would do.
  lemma {:induction false} CommitIsAtomic(s: State, id: string, key: string)
    requires Inv(s) && Current(s) && Enabled(s, Commit(id))
    ensures s.open[id].job.rule.op in OPERATORS
    ensures Rows(Next(s, Commit(id)).alerts, key) == Rows(Evaluate(s.alerts, s.open[id].job), key)
  {
    var tx := s.open[id];
    assert TxCurrent(s.alerts, tx);
    if i :| 0 <= i < |tx.log| && KeyOf(tx.job, tx.job.readings[i]) == key {
      AppliedAt(s.alerts, tx.job, tx.log, i, key);
      EvaluatedAt(s.alerts, tx.job, |tx.job.readings|, i, key);
    } else {
      AppliedUnread(s.alerts, tx.job, tx.log, key);
      Unread(s.alerts, tx.job, |tx.job.readings|, key);
    }
  }

  // The jobs that committed, in commit order.
  ghost function CommittedJobs(s: State, es: seq<Step>): seq<Job>
    requires Runs(s, es)
    decreases es
  {
    if es == [] then []
    else
      var init, e := es[..|es| - 1], es[|es| - 1];
      CommittedJobs(s, init) + (if e.Commit? then [Final(s, init).open[e.rule].job] else [])
  }

  ghost predicate NoOperator(es: seq<Step>) {
    forall i | 0 <= i < |es| :: !es[i].CloseAlert?
  }

  // Every interleaving of the rules equals evaluating the committed ones one
  // after the other.
  lemma {:induction false} Serialisable(t: Table, es: seq<Step>, key: string)
    requires OneFiring(t) && Runs(State(t, map[]), es) && NoOperator(es)
    ensures var s := State(t, map[]); var jobs := CommittedJobs(s, es);
            && Inv(Final(s, es)) && Current(Final(s, es))
            && (forall j | j in jobs :: ValidJob(j) && j.rule.op in OPERATORS)
            && Rows(Final(s, es).alerts, key) == Rows(PassTable(t, jobs), key)
    decreases es
  {
    if es != [] {
      var s, init, e := State(t, map[]), es[..|es| - 1], es[|es| - 1];
      Serialisable(t, init, key);
      StepInv(Final(s, init), e);
      StepCurrent(Final(s, init), e);
      assert CommittedJobs(s, init) + [] == CommittedJobs(s, init);
      if e.Commit? {
        SerialCommit(t, Final(s, init), e.rule, CommittedJobs(s, init), key);
      }
    }
  }

  lemma {:induction false} SerialCommit(t: Table, s: State, id: string, jobs: seq<Job>, key: string)
    requires Inv(s) && Current(s) && Enabled(s, Commit(id))
    requires forall j | j in jobs :: ValidJob(j) && j.rule.op in OPERATORS
    requires Rows(s.alerts, key) == Rows(PassTable(t, jobs), key)
    ensures forall j | j in jobs + [s.open[id].job] :: ValidJob(j) && j.rule.op in OPERATORS
    ensures Rows(Next(s, Commit(id)).alerts, key) == Rows(PassTable(t, jobs + [s.open[id].job]), key)
  {
    var j := s.open[id].job;
    assert TxCurrent(s.alerts, s.open[id]);
    assert (jobs + [j])[..|jobs|] == jobs;
    CommitIsAtomic(s, id, key);
    EvaluateLocal(s.alerts, PassTable(t, jobs), j, key);
  }

  // When each rule commits at most once, the order does not matter at all.
  lemma {:induction false} AnyInterleavingAnyOrder(t: Table, es: seq<Step>, order: seq<Job>, key: string)
    requires OneFiring(t) && Runs(State(t, map[]), es) && NoOperator(es)
    requires ValidPass(order) && ValidPass(CommittedJobs(State(t, map[]), es))
    requires forall j :: j in order <==> j in CommittedJobs(State(t, map[]), es)
    ensures Rows(Final(State(t, map[]), es).alerts, key) == Rows(PassTable(t, order), key)
  {
    Serialisable(t, es, key);
    PassAnyOrder(t, CommittedJobs(State(t, map[]), es), order, key);
  }

  // --------------------------------------------------------------- events

  datatype Event = Fired | Settled | Dismissed

  function EventOf(w: Write): seq<Event> {
    match w
    case Insert(_) => [Fired]
    case Resolve(_, _) => [Settled]
    case _ => []
  }

  // What a transaction reports about one key when it commits.
  function Reported(j: Job, log: seq<Write>, key: string): seq<Event>
    requires |log| <= |j.readings|
  {
    if log == [] then []
    else
      var n := |log| - 1;
      Reported(j, log[..n], key) + (if KeyOf(j, j.readings[n]) == key then EventOf(log[n]) else [])
  }

  ghost function Events(s: State, es: seq<Step>, key: string): seq<Event>
    requires Runs(s, es)
    decreases es
  {
    if es == [] then []
    else
      var init, e := es[..|es| - 1], es[|es| - 1];
      Events(s, init, key) + StepEvents(Final(s, init), e, key)
  }

  ghost function StepEvents(s: State, e: Step, key: string): seq<Event>
    requires Enabled(s, e)
  {
    match e
    case Commit(id) => Reported(s.open[id].job, s.open[id].log, key)
    case CloseAlert(k, row) => if k == key && Rows(s.alerts, k)[row].state == Firing then [Dismissed] else []
    case _ => []
  }

  // Whether the key's alert fires after these events, if it did before them.
  function Phase(firing: bool, evs: seq<Event>): bool {
    if evs == [] then firing else evs[|evs| - 1] == Fired
  }

  // Nothing fires that fires already. When strict, nothing is settled either
  // that does not fire, so that fires and resolutions alternate.
  predicate Alternating(firing: bool, evs: seq<Event>, strict: bool) {
    evs == []
    || (var init, e := evs[..|evs| - 1], evs[|evs| - 1];
        && Alternating(firing, init, strict)
        && (e == Fired ==> !Phase(firing, init))
        && (e == Settled && strict ==> Phase(firing, init)))
  }

  lemma {:induction false} ReportedUnread(j: Job, log: seq<Write>, key: string)
    requires |log| <= |j.readings| && !Reads(j, key, |log|)
    ensures Reported(j, log, key) == []
  {
    if log != [] {
      var n := |log| - 1;
      assert forall i | 0 <= i < n :: KeyOf(j, j.readings[i]) != key;
      assert KeyOf(j, j.readings[n]) != key;
      ReportedUnread(j, log[..n], key);
    }
  }

  lemma {:induction false} ReportedAt(j: Job, log: seq<Write>, i: nat, key: string)
    requires ValidJob(j) && i < |log| <= |j.readings| && key == KeyOf(j, j.readings[i])
    ensures Reported(j, log, key) == EventOf(log[i])
  {
    var n := |log| - 1;
    if i == n {
      forall k | 0 <= k < n ensures KeyOf(j, j.readings[k]) != key {
        KeysDistinct(j, k, n);
      }
      ReportedUnread(j, log[..n], key);
    } else {
      KeysDistinct(j, i, n);
      ReportedAt(j, log[..n], i, key);
    }
  }

  // What one reading's statement reports, and what it does to the phase.
  lemma PendingEvents(rows: seq<Alert>, j: Job, r: Reading, w: Write)
    requires PendingOk(rows, j, r, w)
    ensures var evs := EventOf(w);
            && |evs| <= 1 && Dismissed !in evs
            && HasFiring(WriteRows(rows, w)) == Phase(HasFiring(rows), evs)
            && (evs == [Fired] ==> !HasFiring(rows))
  {
    var after := WriteRows(rows, w);
    if w.Insert? {
      assert after[|after| - 1].state == Firing;
    } else if w.Touch? {
      if HasFiring(rows) {
        assert after[FiringRow(rows).value].state == Firing;
      }
      if HasFiring(after) {
        assert rows[FiringRow(after).value].state == Firing;
      }
    }
  }

  // What a commit reports about a key: at most one event, which accounts for
  // the change of its phase.
  lemma {:induction false} CommitEvents(s: State, id: string, key: string)
    requires Inv(s) && Enabled(s, Commit(id))
    ensures var evs := StepEvents(s, Commit(id), key); var before := HasFiring(Rows(s.alerts, key));
            && |evs| <= 1
            && HasFiring(Rows(Next(s, Commit(id)).alerts, key)) == Phase(before, evs)
            && (evs == [Fired] ==> !before)
            && (evs == [Settled] && Current(s) ==> before)
            && Dismissed !in evs
  {
    var tx := s.open[id];
    assert TxOk(s.alerts, id, tx);
    if i :| 0 <= i < |tx.log| && KeyOf(tx.job, tx.job.readings[i]) == key {
      CommitEventsRead(s, id, key, tx, i);
    } else {
      AppliedUnread(s.alerts, tx.job, tx.log, key);
      ReportedUnread(tx.job, tx.log, key);
    }
  }

  lemma {:induction false} CommitEventsRead(s: State, id: string, key: string, tx: Tx, i: nat)
    requires Inv(s) && Enabled(s, Commit(id)) && tx == s.open[id] && TxOk(s.alerts, id, tx)
    requires i < |tx.log| && key == KeyOf(tx.job, tx.job.readings[i])
    ensures var evs := StepEvents(s, Commit(id), key); var before := HasFiring(Rows(s.alerts, key));
            && |evs| <= 1 && Dismissed !in evs
            && HasFiring(Rows(Next(s, Commit(id)).alerts, key)) == Phase(before, evs)
            && (evs == [Fired] ==> !before)
            && (evs == [Settled] && Current(s) ==> before)
  {
    AppliedAt(s.alerts, tx.job, tx.log, i, key);
    ReportedAt(tx.job, tx.log, i, key);
    PendingEvents(Rows(s.alerts, key), tx.job, tx.job.readings[i], tx.log[i]);
    if Current(s) {
      CurrentSettles(s.alerts, tx, i, key);
    }
  }

  lemma CurrentSettles(t: Table, tx: Tx, i: nat, key: string)
    requires TxCurrent(t, tx) && i < |tx.log| && key == KeyOf(tx.job, tx.job.readings[i])
    ensures EventOf(tx.log[i]) == [Settled] ==> HasFiring(Rows(t, key))
  {
    var w := tx.log[i];
    assert w == Decide(Rows(t, key), tx.job, tx.job.readings[i]);
  }

  lemma {:induction false} CloseEvents(s: State, k: string, row: nat, key: string)
    requires Inv(s) && Enabled(s, CloseAlert(k, row))
    ensures var evs := StepEvents(s, CloseAlert(k, row), key);
            && HasFiring(Rows(Next(s, CloseAlert(k, row)).alerts, key)) == Phase(HasFiring(Rows(s.alerts, key)), evs)
            && (evs != [] ==> HasFiring(Rows(s.alerts, key)))
  {
    var rows := Rows(s.alerts, k);
    assert AtMostOneFiring(rows);
    if rows[row].state == Firing {
      assert forall i | 0 <= i < |rows| && i != row :: rows[i].state != Firing;
      assert forall i | 0 <= i < |rows| :: CloseRow(rows, row)[i].state != Firing;
    } else {
      SameFiring(rows, CloseRow(rows, row));
    }
  }

  lemma SameFiring(a: seq<Alert>, b: seq<Alert>)
    requires |a| == |b| && forall i | 0 <= i < |a| :: a[i].state == Firing <==> b[i].state == Firing
    ensures HasFiring(a) == HasFiring(b)
  {
    if HasFiring(a) {
      assert b[FiringRow(a).value].state == Firing;
    }
    if HasFiring(b) {
      assert a[FiringRow(b).value].state == Firing;
    }
  }

  // The events of one step fit the phase of the state it starts in.
  lemma {:induction false} StepFits(s: State, e: Step, key: string)
    requires Inv(s) && Enabled(s, e)
    ensures var evs := StepEvents(s, e, key); var before := HasFiring(Rows(s.alerts, key));
            && |evs| <= 1
            && HasFiring(Rows(Next(s, e).alerts, key)) == Phase(before, evs)
            && (evs == [Fired] ==> !before)
            && (evs == [Settled] && Current(s) ==> before)
            && (Dismissed in evs ==> e.CloseAlert? && before)
  {
    if e.Commit? {
      CommitEvents(s, e.rule, key);
    } else if e.CloseAlert? {
      CloseEvents(s, e.key, e.row, key);
    }
  }

  // In every run, a key's events never report a fire while it fires; without
  // operators' writes they alternate fire and resolve. The phase they lead to
  // is the table's.
  lemma {:induction false} EventsAlternate(t: Table, es: seq<Step>, key: string)
    requires OneFiring(t) && Runs(State(t, map[]), es)
    ensures var s := State(t, map[]); var firing := HasFiring(Rows(t, key)); var evs := Events(s, es, key);
            && HasFiring(Rows(Final(s, es).alerts, key)) == Phase(firing, evs)
            && Alternating(firing, evs, NoOperator(es))
            && (NoOperator(es) ==> Dismissed !in evs)
    decreases es
  {
    if es != [] {
      var s, init, e := State(t, map[]), es[..|es| - 1], es[|es| - 1];
      EventsAlternate(t, init, key);
      AtMostOneFiringAlways(t, init);
      var mid, before := Final(s, init), Events(s, init, key);
      if NoOperator(es) {
        assert NoOperator(init) && !e.CloseAlert?;
        Serialisable(t, init, key);
      }
      StepFits(mid, e, key);
      AddEvents(HasFiring(Rows(t, key)), before, StepEvents(mid, e, key), NoOperator(init), NoOperator(es));
    }
  }

  lemma AddEvents(firing: bool, before: seq<Event>, evs: seq<Event>, strict: bool, looser: bool)
    requires Alternating(firing, before, strict) && (looser ==> strict) && |evs| <= 1
    requires evs == [Fired] ==> !Phase(firing, before)
    requires evs == [Settled] && looser ==> Phase(firing, before)
    ensures Alternating(firing, before + evs, looser)
    ensures Phase(firing, before + evs) == Phase(Phase(firing, before), evs)
  {
    Looser(firing, before, strict, looser);
    Extend(firing, before, evs, looser);
  }

  lemma {:induction false} Looser(firing: bool, evs: seq<Event>, strict: bool, looser: bool)
    requires Alternating(firing, evs, strict) && (looser ==> strict)
    ensures Alternating(firing, evs, looser)
  {
    if evs != [] {
      Looser(firing, evs[..|evs| - 1], strict, looser);
    }
  }

  lemma Extend(firing: bool, before: seq<Event>, evs: seq<Event>, strict: bool)
    requires Alternating(firing, before, strict) && |evs| <= 1
    requires evs == [Fired] ==> !Phase(firing, before)
    requires evs == [Settled] && strict ==> Phase(firing, before)
    ensures Alternating(firing, before + evs, strict)
    ensures Phase(firing, before + evs) == Phase(Phase(firing, before), evs)
  {
    if evs == [] {
      assert before + evs == before;
    } else {
      var all, e := before + evs, evs[0];
      assert all[..|all| - 1] == before && all[|all| - 1] == e && evs == [e];
    }
  }

  // ------------------------------------------------- alternation, exactly

  // What is notified: an operator's own write is not.
  function Reports(evs: seq<Event>): seq<Event> {
    if evs == [] then []
    else Reports(evs[..|evs| - 1]) + (if evs[|evs| - 1] == Dismissed then [] else [evs[|evs| - 1]])
  }

  predicate LastDismissed(evs: seq<Event>) {
    evs != [] && evs[|evs| - 1] == Dismissed
  }

  // No alert that an operator dismissed fires again straight after.
  predicate NoReturn(evs: seq<Event>) {
    forall i | 0 <= i < |evs| - 1 :: !(evs[i] == Dismissed && evs[i + 1] == Fired)
  }

  // How events can follow each other: the resolving statement does not look at
  // the state again, so that it can follow an operator's write.
  predicate Orderly(firing: bool, evs: seq<Event>) {
    evs == []
    || (var init, e := evs[..|evs| - 1], evs[|evs| - 1];
        && Orderly(firing, init)
        && match e
           case Fired => !Phase(firing, init)
           case Settled => Phase(firing, init) || LastDismissed(init)
           case Dismissed => Phase(firing, init))
  }

  lemma {:induction false} OrderlyReports(firing: bool, evs: seq<Event>)
    requires Orderly(firing, evs)
    ensures Phase(firing, Reports(evs)) == (Phase(firing, evs) || LastDismissed(evs))
    ensures Alternating(firing, Reports(evs), true) <==> NoReturn(evs)
  {
    if evs != [] {
      var init, e := evs[..|evs| - 1], evs[|evs| - 1];
      OrderlyReports(firing, init);
      NoReturnSnoc(evs);
      if e != Dismissed {
        ReportsSnoc(firing, Reports(init), e);
      } else {
        assert Reports(evs) == Reports(init);
      }
    }
  }

  lemma NoReturnSnoc(evs: seq<Event>)
    requires evs != []
    ensures var init := evs[..|evs| - 1];
            NoReturn(evs) <==> NoReturn(init) && !(LastDismissed(init) && evs[|evs| - 1] == Fired)
  {
    var init := evs[..|evs| - 1];
    assert forall i | 0 <= i < |init| :: init[i] == evs[i];
    if NoReturn(evs) && |init| > 0 {
      assert !(evs[|init| - 1] == Dismissed && evs[|init| - 1 + 1] == Fired);
    }
  }

  lemma ReportsSnoc(firing: bool, reports: seq<Event>, e: Event)
    ensures Phase(firing, reports + [e]) == (e == Fired)
    ensures Alternating(firing, reports + [e], true) <==>
              && Alternating(firing, reports, true)
              && (e == Fired ==> !Phase(firing, reports)) && (e == Settled ==> Phase(firing, reports))
  {
    assert (reports + [e])[..|reports|] == reports;
  }

  // A resolving statement that an open transaction holds for the key finds it
  // firing, unless an operator came in between.
  ghost predicate ResolvesExpected(s: State, key: string, evs: seq<Event>) {
    forall id | id in s.open :: TxExpected(s.alerts, s.open[id], key, evs)
  }

  ghost predicate TxExpected(t: Table, tx: Tx, key: string, evs: seq<Event>) {
    forall i | 0 <= i < |tx.log| && i < |tx.job.readings| && tx.log[i].Resolve? ::
      KeyOf(tx.job, tx.job.readings[i]) == key ==> HasFiring(Rows(t, key)) || LastDismissed(evs)
  }

  lemma {:induction false} StepExpected(s: State, e: Step, key: string, evs: seq<Event>)
    requires Inv(s) && Enabled(s, e) && ResolvesExpected(s, key, evs)
    ensures ResolvesExpected(Next(s, e), key, evs + StepEvents(s, e, key))
  {
    var next := Next(s, e);
    forall id | id in next.open ensures TxExpected(next.alerts, next.open[id], key, evs + StepEvents(s, e, key)) {
      if e.Commit? {
        CommitExpected(s, e.rule, id, key, evs);
      } else if e.CloseAlert? {
        CloseExpected(s, e.key, e.row, id, key, evs);
      } else {
        assert evs + [] == evs;
        if e == ReadNext(id) {
          ReadExpected(s, id, key, evs);
        } else if e != Begin(next.open[id].job) {
          assert TxExpected(s.alerts, s.open[id], key, evs);
        }
      }
    }
  }

  lemma {:induction false} CloseExpected(s: State, k: string, row: nat, id: string, key: string, evs: seq<Event>)
    requires Inv(s) && Enabled(s, CloseAlert(k, row)) && id in s.open && TxExpected(s.alerts, s.open[id], key, evs)
    ensures var e := CloseAlert(k, row);
            TxExpected(Next(s, e).alerts, s.open[id], key, evs + StepEvents(s, e, key))
  {
    CloseEvents(s, k, row, key);
    if StepEvents(s, CloseAlert(k, row), key) == [] {
      assert evs + [] == evs;
    }
  }

  lemma {:induction false} ReadExpected(s: State, id: string, key: string, evs: seq<Event>)
    requires Inv(s) && Enabled(s, ReadNext(id)) && TxExpected(s.alerts, s.open[id], key, evs)
    ensures TxExpected(s.alerts, Next(s, ReadNext(id)).open[id], key, evs)
  {
    var tx := s.open[id];
    assert TxOk(s.alerts, id, tx);
    NextKeyUnread(tx);
    AppliedUnread(s.alerts, tx.job, tx.log, KeyOf(tx.job, tx.job.readings[|tx.log|]));
  }

  lemma TxExpectedSame(t: Table, u: Table, tx: Tx, key: string, evs: seq<Event>)
    requires TxExpected(t, tx, key, evs) && Rows(t, key) == Rows(u, key)
    ensures TxExpected(u, tx, key, evs)
  {
  }

  lemma {:induction false} CommitExpected(s: State, id: string, other: string, key: string, evs: seq<Event>)
    requires Inv(s) && Enabled(s, Commit(id)) && other in s.open && other != id
    requires TxExpected(s.alerts, s.open[other], key, evs)
    ensures TxExpected(Next(s, Commit(id)).alerts, s.open[other], key, evs + StepEvents(s, Commit(id), key))
  {
    if i :| 0 <= i < |s.open[other].log| && i < |s.open[other].job.readings|
            && KeyOf(s.open[other].job, s.open[other].job.readings[i]) == key {
      CommitElsewhere(s, id, other, i);
      CommitSilent(s, id, other, key, i);
      assert evs + [] == evs;
      TxExpectedSame(s.alerts, Next(s, Commit(id)).alerts, s.open[other], key, evs);
    }
  }

  // A commit reports nothing about a key that another open rule reads.
  lemma {:induction false} CommitSilent(s: State, id: string, other: string, key: string, i: nat)
    requires Inv(s) && Enabled(s, Commit(id)) && other in s.open && other != id
    requires i < |s.open[other].job.readings| && KeyOf(s.open[other].job, s.open[other].job.readings[i]) == key
    ensures StepEvents(s, Commit(id), key) == []
  {
    var tx, o := s.open[id], s.open[other];
    assert TxOk(s.alerts, id, tx) && TxOk(s.alerts, other, o);
    assert Reads(o.job, key, |o.job.readings|);
    KeysDisjoint(tx.job, o.job, key);
    ReportedUnread(tx.job, tx.log, key);
  }

  // A commit that settles the key finds it firing or just dismissed.
  lemma {:induction false} SettlesExpected(s: State, id: string, key: string, evs: seq<Event>)
    requires Inv(s) && Enabled(s, Commit(id)) && ResolvesExpected(s, key, evs)
    requires StepEvents(s, Commit(id), key) == [Settled]
    ensures HasFiring(Rows(s.alerts, key)) || LastDismissed(evs)
  {
    var tx := s.open[id];
    assert TxOk(s.alerts, id, tx) && TxExpected(s.alerts, tx, key, evs);
    if i :| 0 <= i < |tx.log| && KeyOf(tx.job, tx.job.readings[i]) == key {
      ReportedAt(tx.job, tx.log, i, key);
    } else {
      ReportedUnread(tx.job, tx.log, key);
    }
  }

  lemma {:induction false} EventsOrderly(t: Table, es: seq<Step>, key: string)
    requires OneFiring(t) && Runs(State(t, map[]), es)
    ensures var s := State(t, map[]); var evs := Events(s, es, key);
            Orderly(HasFiring(Rows(t, key)), evs) && ResolvesExpected(Final(s, es), key, evs)
    decreases es
  {
    if es != [] {
      var s, init, e := State(t, map[]), es[..|es| - 1], es[|es| - 1];
      EventsOrderly(t, init, key);
      AtMostOneFiringAlways(t, init);
      EventsAlternate(t, init, key);
      OneMoreOrderly(Final(s, init), e, key, HasFiring(Rows(t, key)), Events(s, init, key));
    }
  }

  lemma {:induction false} OneMoreOrderly(s: State, e: Step, key: string, firing: bool, evs: seq<Event>)
    requires Inv(s) && Enabled(s, e) && ResolvesExpected(s, key, evs) && Orderly(firing, evs)
    requires HasFiring(Rows(s.alerts, key)) == Phase(firing, evs)
    ensures Orderly(firing, evs + StepEvents(s, e, key))
    ensures ResolvesExpected(Next(s, e), key, evs + StepEvents(s, e, key))
  {
    var more := StepEvents(s, e, key);
    StepExpected(s, e, key, evs);
    StepFits(s, e, key);
    if more == [] {
      assert evs + more == evs;
    } else {
      if more == [Settled] {
        SettlesExpected(s, e.rule, key, evs);
      }
      assert more == [more[0]] && (evs + more)[..|evs|] == evs;
    }
  }

  // In every run, operators or not, what is notified about a key alternates fire
  // and resolve if and only if no dismissed alert fires again straight after.
  lemma {:induction false} AlternatesExactlyWhen(t: Table, es: seq<Step>, key: string)
    requires OneFiring(t) && Runs(State(t, map[]), es)
    ensures var evs := Events(State(t, map[]), es, key);
            Alternating(HasFiring(Rows(t, key)), Reports(evs), true) <==> NoReturn(evs)
  {
    EventsOrderly(t, es, key);
    OrderlyReports(HasFiring(Rows(t, key)), Events(State(t, map[]), es, key));
  }

  // ------------------------------------------------------- two runs that show it

  lemma {:induction false} OneStep(s: State, es: seq<Step>, e: Step, key: string) returns (es': seq<Step>)
    requires Runs(s, es) && Enabled(Final(s, es), e)
    ensures Runs(s, es') && Final(s, es') == Next(Final(s, es), e)
    ensures Events(s, es', key) == Events(s, es, key) + StepEvents(Final(s, es), e, key)
  {
    es' := es + [e];
    assert es'[..|es|] == es;
  }

  lemma BeginAndRead(s: State, j: Job, w: Write, key: string)
    requires s.open == map[] && ValidJob(j) && |j.readings| == 1
    requires key == KeyOf(j, j.readings[0]) && w == Decide(Rows(s.alerts, key), j, j.readings[0])
    ensures Enabled(s, Begin(j)) && Enabled(Next(s, Begin(j)), ReadNext(j.rule.id))
    ensures Next(Next(s, Begin(j)), ReadNext(j.rule.id)) == s.(open := map[j.rule.id := Tx(j, [w])])
  {
    assert [] + [w] == [w];
  }

  // A rule with one reading, up to its commit.
  lemma {:induction false} Opened(s: State, es: seq<Step>, mid: State, j: Job, w: Write, key: string)
    returns (es': seq<Step>)
    requires Runs(s, es) && mid == Final(s, es) && mid.open == map[] && ValidJob(j) && |j.readings| == 1
    requires key == KeyOf(j, j.readings[0]) && w == Decide(Rows(mid.alerts, key), j, j.readings[0])
    ensures Runs(s, es') && Events(s, es', key) == Events(s, es, key)
    ensures Final(s, es') == mid.(open := map[j.rule.id := Tx(j, [w])])
  {
    BeginAndRead(mid, j, w, key);
    var evs := Events(s, es, key);
    es' := OneStep(s, es, Begin(j), key);
    es' := OneStep(s, es', ReadNext(j.rule.id), key);
    assert evs + [] + [] == evs;
  }

  lemma {:induction false} CommittedOne(s: State, es: seq<Step>, j: Job, w: Write, key: string) returns (es': seq<Step>)
    requires Runs(s, es) && ValidJob(j) && |j.readings| == 1 && key == KeyOf(j, j.readings[0])
    requires Final(s, es).open == map[j.rule.id := Tx(j, [w])]
    ensures Runs(s, es') && Events(s, es', key) == Events(s, es, key) + EventOf(w)
    ensures Final(s, es').open == map[]
    ensures Rows(Final(s, es').alerts, key) == WriteRows(Rows(Final(s, es).alerts, key), w)
  {
    es' := OneStep(s, es, Commit(j.rule.id), key);
    AppliedAt(Final(s, es).alerts, j, [w], 0, key);
    ReportedAt(j, [w], 0, key);
  }

  // An alert fires, an operator dismisses it, and the next violating reading
  // fires again: two fires without a resolution between them.
  lemma {:induction false} OperatorBreaksAlternation(j: Job, k: Job) returns (es: seq<Step>)
    requires ValidJob(j) && |j.readings| == 1 && MayFire(j, j.readings[0])
    requires ValidJob(k) && |k.readings| == 1 && MayFire(k, k.readings[0])
    requires k.rule == j.rule && k.readings[0].asset == j.readings[0].asset
    ensures var s := State(map[], map[]); var key := KeyOf(j, j.readings[0]);
            Runs(s, es) && Events(s, es, key) == [Fired, Dismissed, Fired]
  {
    var s, key := State(map[], map[]), KeyOf(j, j.readings[0]);
    var w := Decide([], j, j.readings[0]);
    es := Opened(s, [], s, j, w, key);
    es := CommittedOne(s, es, j, w, key);
    var rows := Rows(Final(s, es).alerts, key);
    assert |rows| == 1 && rows[0].state == Firing;
    es := OneStep(s, es, CloseAlert(key, 0), key);
    rows := Rows(Final(s, es).alerts, key);
    assert |rows| == 1 && rows[0].state == Closed;
    w := Decide(rows, k, k.readings[0]);
    es := Opened(s, es, Final(s, es), k, w, key);
    es := CommittedOne(s, es, k, w, key);
  }

  // The resolving statement overwrites what an operator did since the look-up.
  lemma {:induction false} ResolveOverwritesOperator(t: Table, k: Job) returns (es: seq<Step>)
    requires ValidJob(k) && |k.readings| == 1 && !Compare(k.rule.op, k.readings[0].value, k.rule.threshold)
    requires var rows := Rows(t, KeyOf(k, k.readings[0])); |rows| == 1 && rows[0].state == Firing
    ensures var s := State(t, map[]); var key := KeyOf(k, k.readings[0]);
            && Runs(s, es) && Events(s, es, key) == [Dismissed, Settled]
            && |Rows(Final(s, es).alerts, key)| == 1 && Rows(Final(s, es).alerts, key)[0].state == Resolved
  {
    var s, key := State(t, map[]), KeyOf(k, k.readings[0]);
    var w := Decide(Rows(t, key), k, k.readings[0]);
    assert w == Resolve(0, k.now);
    es := Opened(s, [], s, k, w, key);
    es := OneStep(s, es, CloseAlert(key, 0), key);
    es := CommittedOne(s, es, k, w, key);
  }
}
