// The alert engine's rule evaluation: which alerts a rule fires, touches and
// resolves, in one transaction.
module Alerts {
  import opened Wrappers

  datatype Rule = Rule(
    id: string, name: string, metric: string, op: string, threshold: real, severity: string, site: Option<string>)

  // MAX(value) of one asset over the rule's window, with what its turn of the
  // loop meets in case an alert has to be inserted: the UUID that is drawn and
  // the maintenance windows of that moment.
  datatype Reading = Reading(asset: string, value: real, newId: string, windows: set<Window>)

  // Closed stands for every state that an operator can move an alert to.
  datatype AlertState = Firing | Resolved | Closed

  datatype Alert = Alert(
    id: string, rule: string, site: string, asset: string, severity: string, state: AlertState,
    firstSeen: int, lastSeen: int, resolvedAt: Option<int>)

  datatype Window = Window(site: string, starts: int, ends: int)

  // The alerts table, its rows grouped by dedupe_key, oldest first. Rows are
  // only ever appended and updated.
  type Table = map<string, seq<Alert>>

  function Rows(t: Table, key: string): seq<Alert> {
    if key in t then t[key] else []
  }

  // ------------------------------------------------------------- dedupe key

  function DedupeKey(rule: string, asset: string, metric: string): string {
    rule + "|" + asset + "|" + metric
  }

  // UUIDs contain no bar.
  predicate Plain(s: string) {
    '|' !in s
  }

  lemma {:induction false} CutAtBar(a: string, b: string, x: string, y: string)
    requires Plain(a) && Plain(b) && a + "|" + x == b + "|" + y
    ensures a == b && x == y
  {
    var l, r := a + "|" + x, b + "|" + y;
    assert forall i | 0 <= i < |a| :: l[i] == a[i] && a[i] in a;
    assert forall i | 0 <= i < |b| :: r[i] == b[i] && b[i] in b;
    assert l[|a|] == '|' && r[|b|] == '|';
    assert |a| == |b|;
    assert a == l[..|a|] && b == r[..|b|];
    assert x == l[|a| + 1..] && y == r[|b| + 1..];
  }

  // Different rules, assets or metrics never share a key.
  lemma {:induction false} DedupeKeyInjective(r1: string, a1: string, m1: string, r2: string, a2: string, m2: string)
    requires Plain(r1) && Plain(a1) && Plain(r2) && Plain(a2)
    requires DedupeKey(r1, a1, m1) == DedupeKey(r2, a2, m2)
    ensures r1 == r2 && a1 == a2 && m1 == m2
  {
    assert DedupeKey(r1, a1, m1) == r1 + "|" + (a1 + "|" + m1);
    assert DedupeKey(r2, a2, m2) == r2 + "|" + (a2 + "|" + m2);
    CutAtBar(r1, r2, a1 + "|" + m1, a2 + "|" + m2);
    CutAtBar(a1, a2, m1, m2);
  }

  // --------------------------------------------------------------- decision

  const OPERATORS: set<string> := {">", ">=", "<", "<=", "==", "!="}

  predicate Compare(op: string, a: real, b: real)
    requires op in OPERATORS
  {
    if op == ">" then a > b
    else if op == ">=" then a >= b
    else if op == "<" then a < b
    else if op == "<=" then a <= b
    else if op == "==" then a == b
    else a != b
  }

  // Above a reading that violates an upper threshold, and below one that
  // violates a lower threshold, every reading does; each reading is above, at
  // or below.
  lemma OperatorLaws(a: real, b: real, t: real)
    ensures a <= b && Compare(">", a, t) ==> Compare(">", b, t)
    ensures a <= b && Compare(">=", a, t) ==> Compare(">=", b, t)
    ensures a >= b && Compare("<", a, t) ==> Compare("<", b, t)
    ensures a >= b && Compare("<=", a, t) ==> Compare("<=", b, t)
    ensures Compare("<", a, t) <==> Compare("<=", a, t) && Compare("!=", a, t)
    ensures Compare(">", a, t) <==> Compare(">=", a, t) && Compare("!=", a, t)
    ensures Compare("<=", a, t) || Compare(">", a, t)
    ensures !(Compare("<", a, t) && Compare(">=", a, t))
    ensures Compare("==", a, t) <==> Compare("<=", a, t) && Compare(">=", a, t)
    ensures a < b ==> Compare("<", a, b) && Compare(">", b, a)
  {
  }

  predicate Suppressed(windows: set<Window>, site: string, now: int) {
    exists w | w in windows :: w.site == site && w.starts <= now && w.ends >= now
  }

  // One evaluation of a rule: what its query returned, and when.
  datatype Job = Job(rule: Rule, readings: seq<Reading>, now: int)

  // UUIDs for the rule and the assets, and GROUP BY asset_id.
  ghost predicate ValidJob(j: Job) {
    && j.rule.op in OPERATORS && Plain(j.rule.id)
    && (forall i | 0 <= i < |j.readings| :: Plain(j.readings[i].asset))
    && (forall i, k | 0 <= i < k < |j.readings| :: j.readings[i].asset != j.readings[k].asset)
  }

  function KeyOf(j: Job, r: Reading): string {
    DedupeKey(j.rule.id, r.asset, j.rule.metric)
  }

  // A firing row, as `SELECT ... LIMIT 1` would return it.
  function FiringRow(rows: seq<Alert>): (i: Option<nat>)
    ensures i.Some? ==> i.value < |rows| && rows[i.value].state == Firing
    ensures i.None? ==> forall k | 0 <= k < |rows| :: rows[k].state != Firing
  {
    if rows == [] then None
    else if rows[|rows| - 1].state == Firing then Some(|rows| - 1)
    else FiringRow(rows[..|rows| - 1])
  }

  datatype Write = NoWrite | Insert(alert: Alert) | Touch(row: nat, now: int) | Resolve(row: nat, now: int)

  function Decide(rows: seq<Alert>, j: Job, r: Reading): (w: Write)
    requires j.rule.op in OPERATORS
    ensures w.Touch? || w.Resolve? ==> w.row < |rows| && rows[w.row].state == Firing
  {
    var violates := Compare(j.rule.op, r.value, j.rule.threshold);
    var existing := FiringRow(rows);
    if violates && existing.None? then
      if j.rule.site.None? then NoWrite
      else if Suppressed(r.windows, j.rule.site.value, j.now) then NoWrite
      else Insert(Alert(r.newId, j.rule.id, j.rule.site.value, r.asset, j.rule.severity, Firing, j.now, j.now, None))
    else if violates && existing.Some? then Touch(existing.value, j.now)
    else if existing.Some? then Resolve(existing.value, j.now)
    else NoWrite
  }

  // The statement's effect on the rows it finds when it takes effect.
  function WriteRows(rows: seq<Alert>, w: Write): seq<Alert> {
    match w
    case NoWrite => rows
    case Insert(a) => rows + [a]
    case Touch(i, now) => if i < |rows| then rows[i := rows[i].(lastSeen := now)] else rows
    case Resolve(i, now) => if i < |rows| then rows[i := rows[i].(state := Resolved, resolvedAt := Some(now))] else rows
  }

  function Put(t: Table, key: string, w: Write): Table {
    if w == NoWrite then t else t[key := WriteRows(Rows(t, key), w)]
  }

  // The table after the first n readings of a job, evaluated on their own.
  function Evaluated(t: Table, j: Job, n: nat): Table
    requires n <= |j.readings| && j.rule.op in OPERATORS
  {
    if n == 0 then t
    else
      var before, r := Evaluated(t, j, n - 1), j.readings[n - 1];
      Put(before, KeyOf(j, r), Decide(Rows(before, KeyOf(j, r)), j, r))
  }

  function Evaluate(t: Table, j: Job): Table
    requires j.rule.op in OPERATORS
  {
    Evaluated(t, j, |j.readings|)
  }

  // Ids of the alerts inserted, and of those resolved, in order.
  function FiredIds(t: Table, j: Job, n: nat): seq<string>
    requires n <= |j.readings| && j.rule.op in OPERATORS
  {
    if n == 0 then []
    else
      var r := j.readings[n - 1];
      var w := Decide(Rows(Evaluated(t, j, n - 1), KeyOf(j, r)), j, r);
      FiredIds(t, j, n - 1) + (if w.Insert? then [w.alert.id] else [])
  }

  function ResolvedIds(t: Table, j: Job, n: nat): seq<string>
    requires n <= |j.readings| && j.rule.op in OPERATORS
  {
    if n == 0 then []
    else
      var r := j.readings[n - 1];
      var rows := Rows(Evaluated(t, j, n - 1), KeyOf(j, r));
      var w := Decide(rows, j, r);
      ResolvedIds(t, j, n - 1) + (if w.Resolve? then [rows[w.row].id] else [])
  }

  lemma OneMoreReading(t: Table, j: Job, n: nat, before: Table)
    requires n < |j.readings| && j.rule.op in OPERATORS && before == Evaluated(t, j, n)
    ensures var key := KeyOf(j, j.readings[n]); var rows := Rows(before, key);
            var w := Decide(rows, j, j.readings[n]);
            && Evaluated(t, j, n + 1) == Put(before, key, w)
            && FiredIds(t, j, n + 1) == FiredIds(t, j, n) + (if w.Insert? then [w.alert.id] else [])
            && ResolvedIds(t, j, n + 1) == ResolvedIds(t, j, n) + (if w.Resolve? then [rows[w.row].id] else [])
  {
  }

  // The reading of a job that a key belongs to.
  ghost predicate Reads(j: Job, key: string, n: nat)
    requires n <= |j.readings|
  {
    exists i :: 0 <= i < n && KeyOf(j, j.readings[i]) == key
  }

  lemma {:induction false} KeysDistinct(j: Job, i: nat, k: nat)
    requires ValidJob(j) && i < k < |j.readings|
    ensures KeyOf(j, j.readings[i]) != KeyOf(j, j.readings[k])
  {
    if KeyOf(j, j.readings[i]) == KeyOf(j, j.readings[k]) {
      DedupeKeyInjective(j.rule.id, j.readings[i].asset, j.rule.metric, j.rule.id, j.readings[k].asset, j.rule.metric);
    }
  }

  lemma {:induction false} Unread(t: Table, j: Job, n: nat, key: string)
    requires n <= |j.readings| && j.rule.op in OPERATORS && !Reads(j, key, n)
    ensures Rows(Evaluated(t, j, n), key) == Rows(t, key)
  {
    if n > 0 {
      assert KeyOf(j, j.readings[n - 1]) != key;
      assert !Reads(j, key, n - 1) by {
        assert forall i | 0 <= i < n - 1 :: KeyOf(j, j.readings[i]) != key;
      }
      Unread(t, j, n - 1, key);
    }
  }

  lemma LastReading(t: Table, j: Job, n: nat, key: string)
    requires 0 < n <= |j.readings| && j.rule.op in OPERATORS
    ensures var r := j.readings[n - 1]; var rows := Rows(Evaluated(t, j, n - 1), key);
            Rows(Evaluated(t, j, n), key) == if key == KeyOf(j, r) then WriteRows(rows, Decide(rows, j, r)) else rows
  {
  }

  // Each reading decides about the rows its key had before the evaluation, and
  // a key that is not read does not change.
  lemma {:induction false} EvaluatedAt(t: Table, j: Job, n: nat, i: nat, key: string)
    requires ValidJob(j) && i < n <= |j.readings| && key == KeyOf(j, j.readings[i])
    ensures Rows(Evaluated(t, j, n), key) == WriteRows(Rows(t, key), Decide(Rows(t, key), j, j.readings[i]))
  {
    LastReading(t, j, n, key);
    if i == n - 1 {
      forall k | 0 <= k < i ensures KeyOf(j, j.readings[k]) != key {
        KeysDistinct(j, k, i);
      }
      Unread(t, j, i, key);
    } else {
      KeysDistinct(j, i, n - 1);
      EvaluatedAt(t, j, n - 1, i, key);
    }
  }

  ghost predicate AtMostOneFiring(rows: seq<Alert>) {
    forall i, k | 0 <= i < k < |rows| :: !(rows[i].state == Firing && rows[k].state == Firing)
  }

  predicate HasFiring(rows: seq<Alert>) {
    FiringRow(rows).Some?
  }

  // After an evaluation an asset's alert fires if and only if the reading
  // violates the rule and it fired already, or the rule has a site scope and no
  // maintenance window of that site covers the moment, its ends included.
  lemma {:induction false} FiresExactlyWhen(t: Table, j: Job, i: nat)
    requires ValidJob(j) && i < |j.readings|
    requires AtMostOneFiring(Rows(t, KeyOf(j, j.readings[i])))
    ensures var r := j.readings[i]; var key := j.rule.id + "|" + r.asset + "|" + j.rule.metric;
            var fires := HasFiring(Rows(Evaluate(t, j), key));
            var able := || HasFiring(Rows(t, key))
                        || (j.rule.site.Some? &&
                            forall w | w in r.windows :: !(w.site == j.rule.site.value && w.starts <= j.now <= w.ends));
            && AtMostOneFiring(Rows(Evaluate(t, j), key))
            && (j.rule.op == ">" ==> (fires <==> r.value > j.rule.threshold && able))
            && (j.rule.op == ">=" ==> (fires <==> r.value >= j.rule.threshold && able))
            && (j.rule.op == "<" ==> (fires <==> r.value < j.rule.threshold && able))
            && (j.rule.op == "<=" ==> (fires <==> r.value <= j.rule.threshold && able))
            && (j.rule.op == "==" ==> (fires <==> r.value == j.rule.threshold && able))
            && (j.rule.op == "!=" ==> (fires <==> r.value != j.rule.threshold && able))
  {
    var r := j.readings[i];
    EvaluatedAt(t, j, |j.readings|, i, KeyOf(j, r));
    WriteKeepsOneFiring(Rows(t, KeyOf(j, r)), j, r);
  }

  // The rows of that asset afterwards, in full: a new alert with the reading's
  // data, the firing one seen again or resolved, everything else as it was.
  lemma {:induction false} RowsAfter(t: Table, j: Job, i: nat, f: nat)
    requires ValidJob(j) && i < |j.readings|
    ensures var r := j.readings[i]; var key := j.rule.id + "|" + r.asset + "|" + j.rule.metric;
            var rows, after := Rows(t, key), Rows(Evaluate(t, j), key);
            var violates := Compare(j.rule.op, r.value, j.rule.threshold);
            && (AtMostOneFiring(rows) && f < |rows| && rows[f].state == Firing ==>
                  after == rows[f := if violates then rows[f].(lastSeen := j.now)
                                     else rows[f].(state := Resolved, resolvedAt := Some(j.now))])
            && (!HasFiring(rows) ==>
                  after == if violates && j.rule.site.Some? && !Suppressed(r.windows, j.rule.site.value, j.now)
                           then rows + [Alert(r.newId, j.rule.id, j.rule.site.value, r.asset, j.rule.severity, Firing,
                                              j.now, j.now, None)]
                           else rows)
  {
    var r := j.readings[i];
    EvaluatedAt(t, j, |j.readings|, i, KeyOf(j, r));
  }

  lemma WriteKeepsOneFiring(rows: seq<Alert>, j: Job, r: Reading)
    requires j.rule.op in OPERATORS && AtMostOneFiring(rows)
    ensures var after := WriteRows(rows, Decide(rows, j, r));
            && AtMostOneFiring(after)
            && (HasFiring(after) <==>
                  && Compare(j.rule.op, r.value, j.rule.threshold)
                  && (HasFiring(rows) || (j.rule.site.Some? && !Suppressed(r.windows, j.rule.site.value, j.now))))
  {
    var w := Decide(rows, j, r);
    var after := WriteRows(rows, w);
    if w.Insert? {
      assert after[|after| - 1].state == Firing;
    } else if w.Touch? {
      assert after[w.row].state == Firing;
    }
  }

  // ------------------------------------------------------------ commutation

  lemma {:induction false} KeysDisjoint(a: Job, b: Job, key: string)
    requires ValidJob(a) && ValidJob(b) && a.rule.id != b.rule.id
    ensures !(Reads(a, key, |a.readings|) && Reads(b, key, |b.readings|))
  {
    if Reads(a, key, |a.readings|) && Reads(b, key, |b.readings|) {
      var i :| 0 <= i < |a.readings| && KeyOf(a, a.readings[i]) == key;
      var k :| 0 <= k < |b.readings| && KeyOf(b, b.readings[k]) == key;
      DedupeKeyInjective(a.rule.id, a.readings[i].asset, a.rule.metric, b.rule.id, b.readings[k].asset, b.rule.metric);
    }
  }

  // What a job does under a key depends on the rows under that key alone.
  lemma {:induction false} EvaluateLocal(t: Table, u: Table, j: Job, key: string)
    requires ValidJob(j) && Rows(t, key) == Rows(u, key)
    ensures Rows(Evaluate(t, j), key) == Rows(Evaluate(u, j), key)
  {
    var n := |j.readings|;
    if Reads(j, key, n) {
      var i :| 0 <= i < n && KeyOf(j, j.readings[i]) == key;
      EvaluatedAt(t, j, n, i, key);
      EvaluatedAt(u, j, n, i, key);
    } else {
      Unread(t, j, n, key);
      Unread(u, j, n, key);
    }
  }

  // Two rules touch disjoint keys, so evaluating them in either order gives
  // the same rows under every key.
  lemma {:induction false} RulesCommute(t: Table, a: Job, b: Job, key: string)
    requires ValidJob(a) && ValidJob(b) && a.rule.id != b.rule.id
    ensures Rows(Evaluate(Evaluate(t, a), b), key) == Rows(Evaluate(Evaluate(t, b), a), key)
  {
    KeysDisjoint(a, b, key);
    if Reads(a, key, |a.readings|) {
      Unread(Evaluate(t, a), b, |b.readings|, key);
      Unread(t, b, |b.readings|, key);
      EvaluateLocal(t, Evaluate(t, b), a, key);
    } else {
      Unread(t, a, |a.readings|, key);
      Unread(Evaluate(t, b), a, |a.readings|, key);
      EvaluateLocal(Evaluate(t, a), t, b, key);
    }
  }

  // The table after a whole pass, job by job.
  function PassTable(t: Table, jobs: seq<Job>): Table
    requires forall j | j in jobs :: j.rule.op in OPERATORS
  {
    if jobs == [] then t else Evaluate(PassTable(t, jobs[..|jobs| - 1]), jobs[|jobs| - 1])
  }

  ghost predicate ValidPass(jobs: seq<Job>) {
    && (forall j | j in jobs :: ValidJob(j))
    && (forall i, k | 0 <= i < k < |jobs| :: jobs[i].rule.id != jobs[k].rule.id)
  }

  // Under each key a pass does what the one job that reads the key does alone.
  lemma {:induction false} PassAt(t: Table, jobs: seq<Job>, key: string, j: Job)
    requires ValidPass(jobs) && j in jobs && Reads(j, key, |j.readings|)
    ensures Rows(PassTable(t, jobs), key) == Rows(Evaluate(t, j), key)
  {
    var init, last := jobs[..|jobs| - 1], jobs[|jobs| - 1];
    assert forall o | o in init :: o in jobs;
    if j == last {
      forall o | o in init ensures !Reads(o, key, |o.readings|) {
        KeysDisjoint(o, last, key);
      }
      PassUnread(t, init, key);
      EvaluateLocal(PassTable(t, init), t, last, key);
    } else {
      KeysDisjoint(j, last, key);
      Unread(PassTable(t, init), last, |last.readings|, key);
      PassAt(t, init, key, j);
    }
  }

  lemma {:induction false} PassUnread(t: Table, jobs: seq<Job>, key: string)
    requires ValidPass(jobs) && forall j | j in jobs :: !Reads(j, key, |j.readings|)
    ensures Rows(PassTable(t, jobs), key) == Rows(t, key)
  {
    if jobs != [] {
      var init, last := jobs[..|jobs| - 1], jobs[|jobs| - 1];
      PassUnread(t, init, key);
      Unread(PassTable(t, init), last, |last.readings|, key);
    }
  }

  // A pass gives the same table in any order of its rules.
  lemma {:induction false} PassAnyOrder(t: Table, jobs: seq<Job>, other: seq<Job>, key: string)
    requires ValidPass(jobs) && ValidPass(other) && forall j :: j in jobs <==> j in other
    ensures Rows(PassTable(t, jobs), key) == Rows(PassTable(t, other), key)
  {
    if j :| j in jobs && Reads(j, key, |j.readings|) {
      PassAt(t, jobs, key, j);
      PassAt(t, other, key, j);
    } else {
      PassUnread(t, jobs, key);
      PassUnread(t, other, key);
    }
  }

  // ----------------------------------------------------------------- engine

  // Where a rule's transaction breaks down, if it does.
  datatype EvalFault = NoFault | QueryFails | BeginFails | StatementFails(at: nat) | CommitFails

  datatype Notice = FireNotice(id: string) | ResolveNotice(id: string)

  predicate EvalOk(n: nat, fault: EvalFault) {
    fault == NoFault || (fault.StatementFails? && fault.at >= n)
  }

  // A rule that loadRules returned, with what its evaluation meets.
  datatype Attempt = Attempt(job: Job, fault: EvalFault)

  // The jobs of a pass that commit: known operator, no failure.
  function Committed(attempts: seq<Attempt>): seq<Job> {
    if attempts == [] then []
    else
      var a := attempts[|attempts| - 1];
      Committed(attempts[..|attempts| - 1])
      + (if a.job.rule.op in OPERATORS && EvalOk(|a.job.readings|, a.fault) then [a.job] else [])
  }

  // Fire and resolve ids of a pass, rule by rule.
  function PassFired(t: Table, jobs: seq<Job>): seq<string>
    requires forall j | j in jobs :: j.rule.op in OPERATORS
  {
    if jobs == [] then []
    else
      var init, j := jobs[..|jobs| - 1], jobs[|jobs| - 1];
      PassFired(t, init) + FiredIds(PassTable(t, init), j, |j.readings|)
  }

  function PassResolved(t: Table, jobs: seq<Job>): seq<string>
    requires forall j | j in jobs :: j.rule.op in OPERATORS
  {
    if jobs == [] then []
    else
      var init, j := jobs[..|jobs| - 1], jobs[|jobs| - 1];
      PassResolved(t, init) + ResolvedIds(PassTable(t, init), j, |j.readings|)
  }

  function Fires(ids: seq<string>): (r: seq<Notice>)
    ensures |r| == |ids|
  {
    seq(|ids|, i requires 0 <= i < |ids| => FireNotice(ids[i]))
  }

  function Resolves(ids: seq<string>): (r: seq<Notice>)
    ensures |r| == |ids|
  {
    seq(|ids|, i requires 0 <= i < |ids| => ResolveNotice(ids[i]))
  }

  // ---------------------------------------------------------- notifications

  // A new firing row with this id.
  ghost predicate NewlyFires(rows: seq<Alert>, after: seq<Alert>, id: string) {
    |after| == |rows| + 1 && after[|rows|].state == Firing && after[|rows|].id == id
  }

  // A firing row with this id has become a resolved one.
  ghost predicate NewlyResolved(rows: seq<Alert>, after: seq<Alert>, id: string) {
    exists k :: 0 <= k < |rows| && k < |after|
                && rows[k].state == Firing && rows[k].id == id && after[k].state == Resolved
  }

  ghost predicate FiresBetween(t: Table, u: Table, id: string) {
    exists key :: NewlyFires(Rows(t, key), Rows(u, key), id)
  }

  ghost predicate ResolvesBetween(t: Table, u: Table, id: string) {
    exists key :: NewlyResolved(Rows(t, key), Rows(u, key), id)
  }

  // The statement of reading i, and the rows it finds.
  function RowsAt(t: Table, j: Job, i: nat): seq<Alert>
    requires i < |j.readings|
  {
    Rows(t, KeyOf(j, j.readings[i]))
  }

  function StatementAt(t: Table, j: Job, i: nat): (w: Write)
    requires i < |j.readings| && j.rule.op in OPERATORS
    ensures w.Resolve? ==> w.row < |RowsAt(t, j, i)|
  {
    Decide(RowsAt(t, j, i), j, j.readings[i])
  }

  predicate InsertsAt(t: Table, j: Job, i: int, id: string)
    requires j.rule.op in OPERATORS
  {
    0 <= i < |j.readings| && StatementAt(t, j, i).Insert? && StatementAt(t, j, i).alert.id == id
  }

  predicate ResolvesAt(t: Table, j: Job, i: int, id: string)
    requires j.rule.op in OPERATORS
  {
    && 0 <= i < |j.readings| && StatementAt(t, j, i).Resolve?
    && RowsAt(t, j, i)[StatementAt(t, j, i).row].id == id
  }

  lemma WriteAnnounced(rows: seq<Alert>, j: Job, r: Reading, id: string)
    requires j.rule.op in OPERATORS
    ensures var w := Decide(rows, j, r); var after := WriteRows(rows, w);
            && (NewlyFires(rows, after, id) <==> w.Insert? && w.alert.id == id)
            && (NewlyResolved(rows, after, id) <==> w.Resolve? && rows[w.row].id == id)
  {
    var w := Decide(rows, j, r);
    if w.Resolve? {
      assert WriteRows(rows, w)[w.row].state == Resolved;
    }
  }

  // A reading finds the rows that were there before the evaluation.
  lemma {:induction false} FindsRowsAt(t: Table, j: Job, n: nat)
    requires ValidJob(j) && n < |j.readings|
    ensures Rows(Evaluated(t, j, n), KeyOf(j, j.readings[n])) == RowsAt(t, j, n)
  {
    forall k | 0 <= k < n ensures KeyOf(j, j.readings[k]) != KeyOf(j, j.readings[n]) {
      KeysDistinct(j, k, n);
    }
    Unread(t, j, n, KeyOf(j, j.readings[n]));
  }

  lemma {:induction false} OneMoreReported(t: Table, j: Job, n: nat, id: string)
    requires ValidJob(j) && n < |j.readings|
    ensures id in FiredIds(t, j, n + 1) <==> id in FiredIds(t, j, n) || InsertsAt(t, j, n, id)
    ensures id in ResolvedIds(t, j, n + 1) <==> id in ResolvedIds(t, j, n) || ResolvesAt(t, j, n, id)
  {
    FindsRowsAt(t, j, n);
    OneMoreReading(t, j, n, Evaluated(t, j, n));
  }

  ghost predicate StepAdds(has: seq<bool>, adds: seq<bool>, k: nat)
    requires k + 1 < |has| && k < |adds|
  {
    has[k + 1] <==> has[k] || adds[k]
  }

  // What steps can only add is there in the end exactly if some step added it.
  lemma {:induction false} AddedBySome(has: seq<bool>, adds: seq<bool>)
    requires |has| == |adds| + 1 && !has[0]
    requires forall k | 0 <= k < |adds| :: StepAdds(has, adds, k)
    ensures has[|adds|] <==> exists k :: 0 <= k < |adds| && adds[k]
  {
    if adds != [] {
      var n := |adds| - 1;
      var h, a := has[..n + 1], adds[..n];
      forall k | 0 <= k < n ensures StepAdds(h, a, k) {
        assert StepAdds(has, adds, k);
      }
      AddedBySome(h, a);
      assert StepAdds(has, adds, n);
    }
  }

  lemma {:induction false} FiredBySome(t: Table, j: Job, id: string)
    requires ValidJob(j)
    ensures id in FiredIds(t, j, |j.readings|) <==> exists i :: InsertsAt(t, j, i, id)
  {
    var n := |j.readings|;
    var has := seq(n + 1, k requires 0 <= k <= n => id in FiredIds(t, j, k));
    var adds := seq(n, k requires 0 <= k < n => InsertsAt(t, j, k, id));
    forall k | 0 <= k < n ensures StepAdds(has, adds, k) {
      OneMoreReported(t, j, k, id);
    }
    AddedBySome(has, adds);
    if i :| InsertsAt(t, j, i, id) {
      assert adds[i];
    }
  }

  lemma {:induction false} ResolvedBySome(t: Table, j: Job, id: string)
    requires ValidJob(j)
    ensures id in ResolvedIds(t, j, |j.readings|) <==> exists i :: ResolvesAt(t, j, i, id)
  {
    var n := |j.readings|;
    var has := seq(n + 1, k requires 0 <= k <= n => id in ResolvedIds(t, j, k));
    var adds := seq(n, k requires 0 <= k < n => ResolvesAt(t, j, k, id));
    forall k | 0 <= k < n ensures StepAdds(has, adds, k) {
      OneMoreReported(t, j, k, id);
    }
    AddedBySome(has, adds);
    if i :| ResolvesAt(t, j, i, id) {
      assert adds[i];
    }
  }

  // The rows of reading i change as its statement says.
  lemma {:induction false} ChangesAt(t: Table, j: Job, i: nat, id: string)
    requires ValidJob(j) && i < |j.readings|
    ensures var key := KeyOf(j, j.readings[i]);
            && (NewlyFires(Rows(t, key), Rows(Evaluate(t, j), key), id) <==> InsertsAt(t, j, i, id))
            && (NewlyResolved(Rows(t, key), Rows(Evaluate(t, j), key), id) <==> ResolvesAt(t, j, i, id))
  {
    EvaluatedAt(t, j, |j.readings|, i, KeyOf(j, j.readings[i]));
    WriteAnnounced(RowsAt(t, j, i), j, j.readings[i], id);
  }

  lemma {:induction false} ChangesUnread(t: Table, j: Job, key: string, id: string)
    requires ValidJob(j) && !Reads(j, key, |j.readings|)
    ensures !NewlyFires(Rows(t, key), Rows(Evaluate(t, j), key), id)
    ensures !NewlyResolved(Rows(t, key), Rows(Evaluate(t, j), key), id)
  {
    Unread(t, j, |j.readings|, key);
  }

  // A rule reports exactly the alerts that it made fire and that it resolved.
  lemma {:induction false} ReportedExactly(t: Table, j: Job, id: string)
    requires ValidJob(j)
    ensures id in FiredIds(t, j, |j.readings|) <==> FiresBetween(t, Evaluate(t, j), id)
    ensures id in ResolvedIds(t, j, |j.readings|) <==> ResolvesBetween(t, Evaluate(t, j), id)
  {
    FiredBySome(t, j, id);
    ResolvedBySome(t, j, id);
    forall key: string
      ensures NewlyFires(Rows(t, key), Rows(Evaluate(t, j), key), id) ==> exists i :: InsertsAt(t, j, i, id)
      ensures NewlyResolved(Rows(t, key), Rows(Evaluate(t, j), key), id) ==> exists i :: ResolvesAt(t, j, i, id)
    {
      if i :| 0 <= i < |j.readings| && KeyOf(j, j.readings[i]) == key {
        ChangesAt(t, j, i, id);
      } else {
        ChangesUnread(t, j, key, id);
      }
    }
    if i :| InsertsAt(t, j, i, id) {
      ChangesAt(t, j, i, id);
    }
    if i :| ResolvesAt(t, j, i, id) {
      ChangesAt(t, j, i, id);
    }
  }

  // Of a pass and one more rule, only one of the two changes a key.
  lemma {:induction false} OneChanges(t: Table, jobs: seq<Job>, key: string)
    requires ValidPass(jobs) && jobs != []
    ensures ValidPass(jobs[..|jobs| - 1])
    ensures var init := PassTable(t, jobs[..|jobs| - 1]);
            Rows(init, key) == Rows(t, key) || Rows(PassTable(t, jobs), key) == Rows(init, key)
  {
    var init, last := jobs[..|jobs| - 1], jobs[|jobs| - 1];
    assert last in jobs && forall o | o in init :: o in jobs;
    if Reads(last, key, |last.readings|) {
      forall o | o in init ensures !Reads(o, key, |o.readings|) {
        KeysDisjoint(o, last, key);
      }
      PassUnread(t, init, key);
    } else {
      Unread(PassTable(t, init), last, |last.readings|, key);
    }
  }

  // So does a pass.
  lemma {:induction false} PassReportsExactly(t: Table, jobs: seq<Job>, id: string)
    requires ValidPass(jobs)
    ensures id in PassFired(t, jobs) <==> FiresBetween(t, PassTable(t, jobs), id)
    ensures id in PassResolved(t, jobs) <==> ResolvesBetween(t, PassTable(t, jobs), id)
  {
    if jobs != [] {
      var init, last := jobs[..|jobs| - 1], jobs[|jobs| - 1];
      assert last in jobs;
      OneChanges(t, jobs, "");
      var before, after := PassTable(t, init), PassTable(t, jobs);
      PassReportsExactly(t, init, id);
      ReportedExactly(before, last, id);
      forall key
        ensures NewlyFires(Rows(t, key), Rows(after, key), id) <==>
                  NewlyFires(Rows(t, key), Rows(before, key), id) || NewlyFires(Rows(before, key), Rows(after, key), id)
        ensures NewlyResolved(Rows(t, key), Rows(after, key), id) <==>
                  || NewlyResolved(Rows(t, key), Rows(before, key), id)
                  || NewlyResolved(Rows(before, key), Rows(after, key), id)
      {
        OneChanges(t, jobs, key);
      }
    }
  }

  // Exactly the alerts that began to fire and those that were resolved.
  ghost predicate Announces(t: Table, u: Table, notices: seq<Notice>) {
    forall id :: (FireNotice(id) in notices <==> FiresBetween(t, u, id))
                 && (ResolveNotice(id) in notices <==> ResolvesBetween(t, u, id))
  }

  lemma NoticesOf(fired: seq<string>, resolved: seq<string>, id: string)
    ensures FireNotice(id) in Fires(fired) + Resolves(resolved) <==> id in fired
    ensures ResolveNotice(id) in Fires(fired) + Resolves(resolved) <==> id in resolved
  {
    if id in fired {
      var i :| 0 <= i < |fired| && fired[i] == id;
      assert Fires(fired)[i] == FireNotice(id);
    }
    if id in resolved {
      var i :| 0 <= i < |resolved| && resolved[i] == id;
      assert Resolves(resolved)[i] == ResolveNotice(id);
    }
  }

  lemma {:induction false} PassAnnounces(t: Table, jobs: seq<Job>)
    requires ValidPass(jobs)
    ensures Announces(t, PassTable(t, jobs), Fires(PassFired(t, jobs)) + Resolves(PassResolved(t, jobs)))
  {
    forall id
      ensures var notices := Fires(PassFired(t, jobs)) + Resolves(PassResolved(t, jobs));
              && (FireNotice(id) in notices <==> FiresBetween(t, PassTable(t, jobs), id))
              && (ResolveNotice(id) in notices <==> ResolvesBetween(t, PassTable(t, jobs), id))
    {
      PassReportsExactly(t, jobs, id);
      NoticesOf(PassFired(t, jobs), PassResolved(t, jobs), id);
    }
  }

  lemma {:induction false} LateNoticesAnnounce(t: Table, jobs: seq<Job>, before: seq<Notice>, all: seq<Notice>)
    requires ValidPass(jobs) && all == before + Fires(PassFired(t, jobs)) + Resolves(PassResolved(t, jobs))
    ensures Announces(t, PassTable(t, jobs), all[|before|..])
  {
    PassAnnounces(t, jobs);
    assert all[|before|..] == Fires(PassFired(t, jobs)) + Resolves(PassResolved(t, jobs));
  }

  // Which rules of a pass take effect.
  lemma {:induction false} CommittedExactly(attempts: seq<Attempt>, j: Job)
    ensures j in Committed(attempts) <==>
              exists a :: a in attempts && a.job == j
                && j.rule.op in {">", ">=", "<", "<=", "==", "!="}
                && (a.fault == NoFault || (a.fault.StatementFails? && a.fault.at >= |j.readings|))
  {
    if attempts != [] {
      var init, last := attempts[..|attempts| - 1], attempts[|attempts| - 1];
      CommittedExactly(init, j);
      assert attempts == init + [last];
    }
  }

  class Engine {
    var alerts: Table
    var notified: seq<Notice>

    constructor (alerts: Table)
      ensures this.alerts == alerts && notified == []
    {
      this.alerts, notified := alerts, [];
    }

    // One asset's reading inside the transaction.
    static method EvalReading(tx: Table, j: Job, r: Reading)
      returns (next: Table, fired: seq<string>, resolved: seq<string>)
      requires j.rule.op in OPERATORS
      ensures var rows := Rows(tx, KeyOf(j, r)); var w := Decide(rows, j, r);
              && next == Put(tx, KeyOf(j, r), w)
              && fired == (if w.Insert? then [w.alert.id] else [])
              && resolved == (if w.Resolve? then [rows[w.row].id] else [])
    {
      next, fired, resolved := tx, [], [];
      var violates := Compare(j.rule.op, r.value, j.rule.threshold);
      var dedupe := KeyOf(j, r);
      var rows := Rows(tx, dedupe);
      var existing := FiringRow(rows);
      if violates && existing.None? {
        if j.rule.site.None? {
          return;
        }
        if Suppressed(r.windows, j.rule.site.value, j.now) {
          return;
        }
        var a := Alert(r.newId, j.rule.id, j.rule.site.value, r.asset, j.rule.severity, Firing, j.now, j.now, None);
        next := tx[dedupe := rows + [a]];
        fired := [a.id];
      } else if violates && existing.Some? {
        next := tx[dedupe := rows[existing.value := rows[existing.value].(lastSeen := j.now)]];
      } else if !violates && existing.Some? {
        var a := rows[existing.value];
        next := tx[dedupe := rows[existing.value := a.(state := Resolved, resolvedAt := Some(j.now))]];
        resolved := [a.id];
      }
    }

    // One rule in one transaction: all of its writes, or none.
    method EvalOne(j: Job, fault: EvalFault) returns (ok: bool, fired: seq<string>, resolved: seq<string>)
      requires j.rule.op in OPERATORS
      modifies this`alerts
      ensures ok <==> EvalOk(|j.readings|, fault)
      ensures alerts == if ok then Evaluate(old(alerts), j) else old(alerts)
      ensures ok ==> fired == FiredIds(old(alerts), j, |j.readings|)
      ensures ok ==> resolved == ResolvedIds(old(alerts), j, |j.readings|)
    {
      fired, resolved := [], [];
      if fault.QueryFails? || fault.BeginFails? {
        return false, [], [];
      }
      var tx := alerts;
      for i := 0 to |j.readings|
        invariant tx == Evaluated(alerts, j, i) && alerts == old(alerts)
        invariant fired == FiredIds(alerts, j, i) && resolved == ResolvedIds(alerts, j, i)
        invariant fault.StatementFails? ==> fault.at >= i
      {
        if fault == StatementFails(i) {
          return false, [], [];
        }
        var r := j.readings[i];
        var f, d: seq<string>;
        OneMoreReading(alerts, j, i, tx);
        tx, f, d := EvalReading(tx, j, r);
        fired, resolved := fired + f, resolved + d;
      }
      if fault.CommitFails? {
        return false, [], [];
      }
      alerts := tx;
      return true, fired, resolved;
    }

    // The rules of a pass, one committed transaction after another.
    method EvaluateAll(attempts: seq<Attempt>) returns (firedAlerts: seq<string>, resolvedAlerts: seq<string>)
      modifies this`alerts
      ensures forall j | j in Committed(attempts) :: j.rule.op in OPERATORS
      ensures alerts == PassTable(old(alerts), Committed(attempts))
      ensures firedAlerts == PassFired(old(alerts), Committed(attempts))
      ensures resolvedAlerts == PassResolved(old(alerts), Committed(attempts))
    {
      firedAlerts, resolvedAlerts := [], [];
      ghost var jobs: seq<Job> := [];
      for i := 0 to |attempts|
        invariant jobs == Committed(attempts[..i])
        invariant forall j | j in jobs :: j.rule.op in OPERATORS
        invariant alerts == PassTable(old(alerts), jobs)
        invariant firedAlerts == PassFired(old(alerts), jobs)
        invariant resolvedAlerts == PassResolved(old(alerts), jobs)
      {
        assert attempts[..i + 1][..i] == attempts[..i];
        var a := attempts[i];
        if a.job.rule.op !in OPERATORS {
          continue;
        }
        var ok, fIds, rIds := EvalOne(a.job, a.fault);
        if !ok {
          continue;
        }
        assert (jobs + [a.job])[..|jobs|] == jobs;
        jobs := jobs + [a.job];
        firedAlerts := firedAlerts + fIds;
        resolvedAlerts := resolvedAlerts + rIds;
      }
      assert attempts[..|attempts|] == attempts;
    }

    // Notifies each id, in order.
    method Notify(fires: bool, ids: seq<string>)
      modifies this`notified
      ensures notified == old(notified) + (if fires then Fires(ids) else Resolves(ids))
    {
      for i := 0 to |ids|
        invariant notified == old(notified) + (if fires then Fires(ids[..i]) else Resolves(ids[..i]))
      {
        notified := notified + [if fires then FireNotice(ids[i]) else ResolveNotice(ids[i])];
      }
      assert ids[..|ids|] == ids;
    }

    // A pass: rules with an unknown operator are skipped, a failing rule leaves
    // no trace, and exactly the committed changes are notified, fires first.
    method EvaluateRules(attempts: seq<Attempt>)
      modifies this
      ensures forall j | j in Committed(attempts) :: j.rule.op in OPERATORS
      ensures alerts == PassTable(old(alerts), Committed(attempts))
      ensures notified == old(notified) + Fires(PassFired(old(alerts), Committed(attempts)))
                          + Resolves(PassResolved(old(alerts), Committed(attempts)))
      ensures ValidPass(Committed(attempts)) ==> Announces(old(alerts), alerts, notified[|old(notified)|..])
    {
      var firedAlerts, resolvedAlerts := EvaluateAll(attempts);
      Notify(true, firedAlerts);
      Notify(false, resolvedAlerts);
      if ValidPass(Committed(attempts)) {
        LateNoticesAnnounce(old(alerts), Committed(attempts), old(notified), notified);
      }
    }
  }
}
