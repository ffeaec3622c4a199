// heron's ingest endpoint: validation, the deduplicating insert into
// telemetry_samples and the freshness upsert into telemetry_sources.
module Heron {
  import opened Wrappers
  import opened Samples

  datatype Batch = Batch(batchId: string, site: string, collector: string, samples: seq<Sample>)

  // One row of telemetry_samples; `seq` is called `position` here.
  datatype SampleRow = SampleRow(
    ts: string, site: string, asset: string, collector: string, batchId: string, position: nat,
    metric: string, value: Reading, unit: Option<string>, receivedAt: int, tags: map<string, string>)

  // The columns of the constraint uq_telem_sample_dedup.
  datatype SampleKey = SampleKey(collector: string, batchId: string, position: nat, ts: string)

  datatype SourceKey = SourceKey(asset: string, metric: string)

  // One row of telemetry_sources.
  datatype SourceRow = SourceRow(
    site: string, collector: string, unit: Option<string>, lastSuccess: int, lastReading: string, lastValue: Reading)

  type SampleTable = map<SampleKey, SampleRow>
  type SourceTable = map<SourceKey, SourceRow>

  const MAX_SAMPLES := 5000

  // ---------------------------------------------------------------- samples

  function NullIfEmpty(unit: string): Option<string> {
    if unit == "" then None else Some(unit)
  }

  function RowAt(b: Batch, i: nat, receivedAt: int): SampleRow
    requires i < |b.samples|
  {
    var s := b.samples[i];
    SampleRow(s.ts, b.site, s.asset, b.collector, b.batchId, i, s.metric, s.value,
              NullIfEmpty(s.unit), receivedAt, s.tags)
  }

  function KeyOf(r: SampleRow): SampleKey {
    SampleKey(r.collector, r.batchId, r.position, r.ts)
  }

  function KeyAt(b: Batch, i: nat): SampleKey
    requires i < |b.samples|
  {
    SampleKey(b.collector, b.batchId, i, b.samples[i].ts)
  }

  // INSERT ... ON CONFLICT DO NOTHING of rows `from` and on.
  function InsertFrom(t: SampleTable, b: Batch, from: nat, receivedAt: int): SampleTable
    requires from <= |b.samples|
    decreases |b.samples| - from
  {
    if from == |b.samples| then t
    else
      var r := RowAt(b, from, receivedAt);
      InsertFrom(if KeyOf(r) in t then t else t[KeyOf(r) := r], b, from + 1, receivedAt)
  }

  function Insert(t: SampleTable, b: Batch, receivedAt: int): SampleTable {
    InsertFrom(t, b, 0, receivedAt)
  }

  // The insert changes no row that was there and adds only keys of the batch.
  lemma {:induction false} InsertAddsOnly(t: SampleTable, b: Batch, from: nat, receivedAt: int, k: SampleKey)
    requires from <= |b.samples|
    ensures var t' := InsertFrom(t, b, from, receivedAt);
            && (k in t ==> k in t' && t'[k] == t[k])
            && (k in t' && k !in t ==> from <= k.position < |b.samples| && k == KeyAt(b, k.position))
    decreases |b.samples| - from
  {
    if from < |b.samples| {
      var r := RowAt(b, from, receivedAt);
      InsertAddsOnly(if KeyOf(r) in t then t else t[KeyOf(r) := r], b, from + 1, receivedAt, k);
    }
  }

  // Every key of the batch is there afterwards; a missing one gets its own row.
  lemma {:induction false} InsertAddsAll(t: SampleTable, b: Batch, from: nat, receivedAt: int, i: nat)
    requires from <= i < |b.samples|
    ensures var t' := InsertFrom(t, b, from, receivedAt);
            KeyAt(b, i) in t' && (KeyAt(b, i) !in t ==> t'[KeyAt(b, i)] == RowAt(b, i, receivedAt))
    decreases |b.samples| - from
  {
    var r := RowAt(b, from, receivedAt);
    var t1 := if KeyOf(r) in t then t else t[KeyOf(r) := r];
    InsertAddsOnly(t1, b, from + 1, receivedAt, KeyOf(r));
    if from < i {
      InsertAddsAll(t1, b, from + 1, receivedAt, i);
    }
  }

  // A retry of the same batch leaves the table as it is.
  lemma {:induction false} InsertIdempotent(t: SampleTable, b: Batch, first: int, second: int)
    ensures Insert(Insert(t, b, first), b, second) == Insert(t, b, first)
  {
    var once := Insert(t, b, first);
    var twice := Insert(once, b, second);
    forall k ensures k in twice <==> k in once {
      InsertAddsOnly(once, b, 0, second, k);
      if k in twice && k !in once {
        InsertAddsAll(t, b, 0, first, k.position);
      }
    }
    forall k | k in once ensures twice[k] == once[k] {
      InsertAddsOnly(once, b, 0, second, k);
    }
  }

  // ON CONFLICT DO NOTHING loses a sample exactly when its key was taken by
  // a row with other contents; a batch id nobody used before rules that out.
  lemma {:induction false} SampleStoredUnlessKeyTaken(t: SampleTable, b: Batch, i: nat, receivedAt: int)
    requires i < |b.samples|
    ensures KeyAt(b, i) in Insert(t, b, receivedAt)
    ensures Insert(t, b, receivedAt)[KeyAt(b, i)] == RowAt(b, i, receivedAt)
            <==> (KeyAt(b, i) in t ==> t[KeyAt(b, i)] == RowAt(b, i, receivedAt))
  {
    InsertAddsOnly(t, b, 0, receivedAt, KeyAt(b, i));
    InsertAddsAll(t, b, 0, receivedAt, i);
  }

  // ------------------------------------------------------- statement building

  // A bound SQL argument.
  datatype Cell = Text(text: string) | Number(reading: Reading) | Int(n: int) | Null | Object(tags: map<string, string>)

  // The column list of the INSERT statement.
  datatype Column = Ts | SiteId | AssetId | CollectorId | BatchId | Seq | Metric | Value | Unit | ReceivedAt | Tags

  const COLUMNS := [Ts, SiteId, AssetId, CollectorId, BatchId, Seq, Metric, Value, Unit, ReceivedAt, Tags]

  // What a stored row holds in a column.
  function ColumnOf(r: SampleRow, c: Column): Cell {
    match c
    case Ts => Text(r.ts)
    case SiteId => Text(r.site)
    case AssetId => Text(r.asset)
    case CollectorId => Text(r.collector)
    case BatchId => Text(r.batchId)
    case Seq => Int(r.position)
    case Metric => Text(r.metric)
    case Value => Number(r.value)
    case Unit => if r.unit.None? then Null else Text(r.unit.value)
    case ReceivedAt => Int(r.receivedAt)
    case Tags => Object(r.tags)
  }

  predicate RowShaped(cells: seq<Cell>) {
    && |cells| == |COLUMNS|
    && cells[0].Text? && cells[1].Text? && cells[2].Text? && cells[3].Text? && cells[4].Text?
    && cells[5].Int? && cells[5].n >= 0 && cells[6].Text? && cells[7].Number?
    && (cells[8].Null? || cells[8].Text?) && cells[9].Int? && cells[10].Object?
  }

  // The row the database stores for the values of the eleven columns.
  function StoredRow(cells: seq<Cell>): (r: SampleRow)
    requires RowShaped(cells)
    ensures forall c | 0 <= c < |COLUMNS| :: ColumnOf(r, COLUMNS[c]) == cells[c]
  {
    SampleRow(cells[0].text, cells[1].text, cells[2].text, cells[3].text, cells[4].text, cells[5].n, cells[6].text,
              cells[7].reading, if cells[8].Null? then None else Some(cells[8].text), cells[9].n, cells[10].tags)
  }

  // The values that the placeholders of row i pick out of the arguments.
  function Bound(placeholders: seq<nat>, args: seq<Cell>, i: nat): (cells: seq<Cell>)
    requires 11 * i + 11 <= |placeholders|
    requires forall p | 0 <= p < |placeholders| :: 1 <= placeholders[p] <= |args|
    ensures |cells| == 11
  {
    seq(11, c requires 0 <= c < 11 => args[placeholders[11 * i + c] - 1])
  }

  // Arguments of one row, in the order of the column list.
  method HypertableRows(b: Batch, receivedAt: int) returns (rows: seq<seq<Cell>>)
    ensures |rows| == |b.samples|
    ensures forall i | 0 <= i < |rows| :: RowShaped(rows[i]) && StoredRow(rows[i]) == RowAt(b, i, receivedAt)
  {
    rows := [];
    for i := 0 to |b.samples|
      invariant |rows| == i
      invariant forall j | 0 <= j < i :: RowShaped(rows[j]) && StoredRow(rows[j]) == RowAt(b, j, receivedAt)
    {
      var sm := b.samples[i];
      var unit := Null;
      if sm.unit != "" {
        unit := Text(sm.unit);
      }
      var tags := map[];
      if |sm.tags| > 0 {
        tags := sm.tags;
      }
      assert tags == sm.tags;
      rows := rows + [[
        Text(sm.ts), Text(b.site), Text(sm.asset), Text(b.collector),
        Text(b.batchId), Int(i), Text(sm.metric), Number(sm.value), unit,
        Int(receivedAt), Object(tags)]];
    }
  }

  // The VALUES list ($1, ..., $11), ($12, ...) and its arguments. Slot p of the
  // list names argument p + 1: every placeholder occurs once, and row i,
  // column c is bound to the cell built for it.
  method BuildInsert(rows: seq<seq<Cell>>) returns (placeholders: seq<nat>, args: seq<Cell>)
    requires forall i | 0 <= i < |rows| :: |rows[i]| == 11
    ensures |placeholders| == |args| == 11 * |rows|
    ensures forall p | 0 <= p < |placeholders| :: placeholders[p] == p + 1
    ensures forall i | 0 <= i < |rows| :: Bound(placeholders, args, i) == rows[i]
  {
    placeholders, args := [], [];
    for i := 0 to |rows|
      invariant |placeholders| == |args| == 11 * i
      invariant forall p | 0 <= p < |placeholders| :: placeholders[p] == p + 1
      invariant forall j | 0 <= j < i :: args[11 * j..11 * j + 11] == rows[j]
    {
      var base := i * 11;
      placeholders := placeholders + [base + 1, base + 2, base + 3, base + 4, base + 5, base + 6,
                                      base + 7, base + 8, base + 9, base + 10, base + 11];
      args := args + rows[i];
    }
  }

  // ---------------------------------------------------------------- sources

  function SourceOf(s: Sample): SourceKey {
    SourceKey(s.asset, s.metric)
  }

  // The last sample of each (asset, metric), in batch order.
  function Latest(ss: seq<Sample>): map<SourceKey, Sample> {
    if ss == [] then map[]
    else Latest(ss[..|ss| - 1])[SourceOf(ss[|ss| - 1]) := ss[|ss| - 1]]
  }

  function Coalesce(a: Option<string>, b: Option<string>): Option<string> {
    if a.Some? then a else b
  }

  function UnitIn(t: SourceTable, k: SourceKey): Option<string> {
    if k in t then t[k].unit else None
  }

  // INSERT ... ON CONFLICT (asset_id, metric) DO UPDATE for one sample. The
  // site is written on insert only.
  function Upserted(t: SourceTable, b: Batch, k: SourceKey, s: Sample, receivedAt: int): SourceRow {
    SourceRow(if k in t then t[k].site else b.site, b.collector,
              Coalesce(NullIfEmpty(s.unit), UnitIn(t, k)), receivedAt, s.ts, s.value)
  }

  // The table after one upsert for each key of `keys`.
  function UpsertKeys(t: SourceTable, b: Batch, latest: map<SourceKey, Sample>, keys: set<SourceKey>, receivedAt: int)
    : SourceTable
    requires keys <= latest.Keys
  {
    map k | k in t.Keys + keys :: if k in keys then Upserted(t, b, k, latest[k], receivedAt) else t[k]
  }

  // The table after one upsert for each (asset, metric) of the batch.
  function UpsertLatest(t: SourceTable, b: Batch, receivedAt: int): SourceTable {
    UpsertKeys(t, b, Latest(b.samples), Latest(b.samples).Keys, receivedAt)
  }

  // The reference: every sample upserted on its own, in batch order.
  function UpsertEach(t: SourceTable, b: Batch, n: nat, receivedAt: int): SourceTable
    requires n <= |b.samples|
  {
    if n == 0 then t
    else
      var before, s := UpsertEach(t, b, n - 1, receivedAt), b.samples[n - 1];
      before[SourceOf(s) := Upserted(before, b, SourceOf(s), s, receivedAt)]
  }

  // The last unit that a sample of `k` carries.
  function LastUnit(ss: seq<Sample>, k: SourceKey): Option<string> {
    if ss == [] then None
    else
      var s := ss[|ss| - 1];
      if SourceOf(s) == k && s.unit != "" then Some(s.unit) else LastUnit(ss[..|ss| - 1], k)
  }

  ghost predicate IsLastFor(ss: seq<Sample>, k: SourceKey, i: int) {
    0 <= i < |ss| && SourceOf(ss[i]) == k && forall j | i < j < |ss| :: SourceOf(ss[j]) != k
  }

  // The map holds a pair exactly when the batch does, with its last sample.
  lemma {:induction false} LatestIsLast(ss: seq<Sample>, k: SourceKey)
    ensures k !in Latest(ss) ==> forall i | 0 <= i < |ss| :: SourceOf(ss[i]) != k
    ensures k in Latest(ss) ==> exists i :: IsLastFor(ss, k, i) && Latest(ss)[k] == ss[i]
  {
    if ss != [] {
      var init, last := ss[..|ss| - 1], |ss| - 1;
      LatestIsLast(init, k);
      if SourceOf(ss[last]) == k {
        assert IsLastFor(ss, k, last);
      } else if k in Latest(ss) {
        var i :| IsLastFor(init, k, i) && Latest(init)[k] == init[i];
        assert IsLastFor(ss, k, i);
      }
    }
  }

  lemma {:induction false} LatestUnit(ss: seq<Sample>, k: SourceKey)
    requires k in Latest(ss) && Latest(ss)[k].unit != ""
    ensures LastUnit(ss, k) == Some(Latest(ss)[k].unit)
  {
    if SourceOf(ss[|ss| - 1]) != k {
      LatestUnit(ss[..|ss| - 1], k);
    }
  }

  // What upserting the first n samples one by one leaves at a pair.
  lemma {:induction false} EachRow(t: SourceTable, b: Batch, n: nat, receivedAt: int, k: SourceKey)
    requires n <= |b.samples|
    ensures var each := UpsertEach(t, b, n, receivedAt); var latest := Latest(b.samples[..n]);
            && (k in each <==> k in t || k in latest)
            && (k in t && k !in latest ==> each[k] == t[k])
            && (k in latest ==>
                  each[k] == SourceRow(if k in t then t[k].site else b.site, b.collector,
                                       Coalesce(LastUnit(b.samples[..n], k), UnitIn(t, k)),
                                       receivedAt, latest[k].ts, latest[k].value))
            && (k !in latest ==> LastUnit(b.samples[..n], k) == None)
  {
    if n > 0 {
      EachRow(t, b, n - 1, receivedAt, k);
      assert b.samples[..n][..n - 1] == b.samples[..n - 1];
    }
  }

  // Folding the batch to its latest samples equals upserting every sample, in
  // every column but unit, and in unit exactly when the last sample of the pair
  // carries one, no sample of the pair does, or the one that does repeats the
  // unit already stored.
  lemma {:induction false} FreshnessFold(t: SourceTable, b: Batch, receivedAt: int, k: SourceKey)
    ensures var folded := UpsertLatest(t, b, receivedAt);
            var each := UpsertEach(t, b, |b.samples|, receivedAt);
            && (k in folded <==> k in each)
            && (k in folded ==>
                  && folded[k].(unit := None) == each[k].(unit := None)
                  && (folded[k].unit == each[k].unit <==>
                        || k !in Latest(b.samples)
                        || Latest(b.samples)[k].unit != ""
                        || LastUnit(b.samples, k) == None
                        || LastUnit(b.samples, k) == UnitIn(t, k)))
  {
    assert b.samples[..|b.samples|] == b.samples;
    EachRow(t, b, |b.samples|, receivedAt, k);
    if k in Latest(b.samples) && Latest(b.samples)[k].unit != "" {
      LatestUnit(b.samples, k);
    }
  }

  // ----------------------------------------------------------------- server

  datatype Request = Request(isPost: bool, authorized: bool, body: Option<Batch>)

  // The insert statement: committed, failed, or committed while its answer is
  // lost, so that heron sees an error.
  datatype ExecResult = ExecOk | ExecFailed | ExecLost

  // Where the freshness transaction breaks down, if it does; a commit can also
  // take effect while its answer is lost.
  datatype UpsertFault =
    | NoUpsertFault
    | UpsertBeginFails
    | UpsertExecFails(pair: SourceKey)
    | UpsertCommitFails
    | UpsertCommitLost

  // The refusals that precede any write.
  function Refusal(req: Request): Option<int> {
    if !req.isPost then Some(405)
    else if !req.authorized then Some(401)
    else if req.body.None? then Some(400)
    else if |req.body.value.samples| == 0 || |req.body.value.samples| > MAX_SAMPLES then Some(400)
    else if |req.body.value.batchId| < 8 || |req.body.value.batchId| > 64 then Some(400)
    else None
  }

  predicate UpsertSucceeds(b: Batch, fault: UpsertFault) {
    fault == NoUpsertFault || (fault.UpsertExecFails? && fault.pair !in Latest(b.samples))
  }

  predicate UpsertCommits(b: Batch, fault: UpsertFault) {
    UpsertSucceeds(b, fault) || fault == UpsertCommitLost
  }

  // What a request leaves of the two tables, and its status.
  datatype Ingest = Ingest(samples: SampleTable, sources: SourceTable, status: int)

  function Ingested(samples: SampleTable, sources: SourceTable, writeHypertable: bool, req: Request, receivedAt: int,
                    exec: ExecResult, fault: UpsertFault): (r: Ingest)
    ensures r.status == 200 ==>
              && Refusal(req).None?
              && (writeHypertable ==> r.samples == Insert(samples, req.body.value, receivedAt))
              && r.sources == UpsertLatest(sources, req.body.value, receivedAt)
    ensures Refusal(req).Some? ==> r.samples == samples && r.sources == sources
  {
    if Refusal(req).Some? then Ingest(samples, sources, Refusal(req).value)
    else
      var b := req.body.value;
      Ingest(if writeHypertable && !exec.ExecFailed? then Insert(samples, b, receivedAt) else samples,
             if UpsertCommits(b, fault) then UpsertLatest(sources, b, receivedAt) else sources,
             if (writeHypertable && !exec.ExecOk?) || !UpsertSucceeds(b, fault) then 502 else 200)
  }

  lemma UpsertOneMore(t: SourceTable, b: Batch, latest: map<SourceKey, Sample>, keys: set<SourceKey>, k: SourceKey,
                      receivedAt: int)
    requires keys <= latest.Keys && k in latest && k !in keys
    ensures UpsertKeys(t, b, latest, {}, receivedAt) == t
    ensures keys + {k} <= latest.Keys
    ensures var tx := UpsertKeys(t, b, latest, keys, receivedAt);
            UpsertKeys(t, b, latest, keys + {k}, receivedAt) == tx[k := Upserted(tx, b, k, latest[k], receivedAt)]
  {
  }

  // One statement per pair, in whatever order the map yields the pairs.
  method UpsertPairs(t: SourceTable, b: Batch, latest: map<SourceKey, Sample>, receivedAt: int, fault: UpsertFault)
    returns (ok: bool, tx: SourceTable)
    ensures ok <==> !(fault.UpsertExecFails? && fault.pair in latest)
    ensures ok ==> tx == UpsertKeys(t, b, latest, latest.Keys, receivedAt)
  {
    tx := t;
    assert UpsertKeys(t, b, latest, {}, receivedAt) == t;
    var todo: set<SourceKey>, done: set<SourceKey> := latest.Keys, {};
    while todo != {}
      invariant done == latest.Keys - todo && todo <= latest.Keys
      invariant fault.UpsertExecFails? ==> fault.pair !in done
      invariant tx == UpsertKeys(t, b, latest, done, receivedAt)
      decreases todo
    {
      var k :| k in todo;
      if fault == UpsertExecFails(k) {
        return false, tx;
      }
      UpsertOneMore(t, b, latest, done, k, receivedAt);
      tx := tx[k := Upserted(tx, b, k, latest[k], receivedAt)];
      todo, done := todo - {k}, done + {k};
    }
    assert done == latest.Keys;
    return true, tx;
  }

  // The database runs the statement, row by row.
  method RunInsert(t: SampleTable, b: Batch, receivedAt: int, rows: seq<seq<Cell>>,
                   placeholders: seq<nat>, args: seq<Cell>)
    returns (t': SampleTable)
    requires |rows| == |b.samples| && |placeholders| == |args| == 11 * |rows|
    requires forall p | 0 <= p < |placeholders| :: 1 <= placeholders[p] <= |args|
    requires forall i | 0 <= i < |rows| :: Bound(placeholders, args, i) == rows[i]
    requires forall i | 0 <= i < |rows| :: RowShaped(rows[i]) && StoredRow(rows[i]) == RowAt(b, i, receivedAt)
    ensures t' == Insert(t, b, receivedAt)
  {
    t' := t;
    for i := 0 to |rows|
      invariant InsertFrom(t', b, i, receivedAt) == Insert(t, b, receivedAt)
    {
      var row := StoredRow(Bound(placeholders, args, i));
      if KeyOf(row) !in t' {
        t' := t'[KeyOf(row) := row];
      }
    }
  }

  class Server {
    var samples: SampleTable
    var sources: SourceTable
    const writeHypertable: bool

    constructor (samples: SampleTable, sources: SourceTable, writeHypertable: bool)
      ensures this.samples == samples && this.sources == sources && this.writeHypertable == writeHypertable
    {
      this.samples, this.sources, this.writeHypertable := samples, sources, writeHypertable;
    }

    method WriteHypertableRows(b: Batch, receivedAt: int, exec: ExecResult) returns (ok: bool)
      modifies this`samples
      ensures ok <==> |b.samples| == 0 || exec.ExecOk?
      ensures samples == if |b.samples| == 0 || !exec.ExecFailed? then Insert(old(samples), b, receivedAt)
                         else old(samples)
    {
      if |b.samples| == 0 {
        return true;
      }
      var rows := HypertableRows(b, receivedAt);
      var placeholders, args := BuildInsert(rows);
      if exec.ExecFailed? {
        return false;
      }
      var t := RunInsert(samples, b, receivedAt, rows, placeholders, args);
      samples := t;
      return exec.ExecOk?;
    }

    method UpsertFreshness(b: Batch, receivedAt: int, fault: UpsertFault) returns (ok: bool)
      modifies this`sources
      ensures ok <==> UpsertSucceeds(b, fault)
      ensures sources == if UpsertCommits(b, fault) then UpsertLatest(old(sources), b, receivedAt) else old(sources)
    {
      var latest: map<SourceKey, Sample> := map[];
      for i := 0 to |b.samples|
        invariant latest == Latest(b.samples[..i])
      {
        latest := latest[SourceOf(b.samples[i]) := b.samples[i]];
        assert b.samples[..i + 1][..i] == b.samples[..i];
      }
      assert b.samples[..|b.samples|] == b.samples;
      if fault.UpsertBeginFails? {
        return false;
      }
      var tx := sources;
      ok, tx := UpsertPairs(tx, b, latest, receivedAt, fault);
      if !ok {
        return;
      }
      if fault.UpsertCommitFails? {
        return false;
      }
      sources := tx;
      return fault != UpsertCommitLost;
    }

    // 200 means that both writes were committed (the sample write only where
    // it is switched on), 502 that one of them is reported as failed, committed
    // or not; a refused request writes nothing.
    method HandleIngest(req: Request, receivedAt: int, exec: ExecResult, fault: UpsertFault) returns (status: int)
      modifies this
      ensures status == 405 <==> !req.isPost
      ensures status == 401 <==> req.isPost && !req.authorized
      ensures status == 400 <==>
                && req.isPost && req.authorized
                && (|| req.body.None? || !(1 <= |req.body.value.samples| <= 5000)
                    || !(8 <= |req.body.value.batchId| <= 64))
      ensures Refusal(req).Some? ==> status == Refusal(req).value && unchanged(this)
      ensures Refusal(req).None? ==>
                && samples == (if writeHypertable && !exec.ExecFailed?
                               then Insert(old(samples), req.body.value, receivedAt) else old(samples))
                && sources == (if UpsertCommits(req.body.value, fault)
                               then UpsertLatest(old(sources), req.body.value, receivedAt) else old(sources))
                && status == (if (writeHypertable && !exec.ExecOk?) || !UpsertSucceeds(req.body.value, fault)
                              then 502 else 200)
      ensures Ingest(samples, sources, status) ==
              Ingested(old(samples), old(sources), writeHypertable, req, receivedAt, exec, fault)
    {
      if !req.isPost {
        return 405;
      }
      if !req.authorized {
        return 401;
      }
      if req.body.None? {
        return 400;
      }
      var b := req.body.value;
      if |b.samples| == 0 || |b.samples| > MAX_SAMPLES {
        return 400;
      }
      if |b.batchId| < 8 || |b.batchId| > 64 {
        return 400;
      }
      var hyperOk := true;
      if writeHypertable {
        hyperOk := WriteHypertableRows(b, receivedAt, exec);
      }
      var freshOk := UpsertFreshness(b, receivedAt, fault);
      if !hyperOk {
        return 502;
      }
      if !freshOk {
        return 502;
      }
      return 200;
    }
  }
}
