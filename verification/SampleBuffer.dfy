// badger's durable queue: one table of JSON payloads under AUTOINCREMENT ids.
module SampleBuffer {
  import opened Samples

  // What a payload column holds: the JSON of a sample, or bytes that do not parse.
  datatype Payload = Json(sample: Sample) | Garbage

  datatype Stored = Stored(id: int, payload: Payload)

  // A drained row, its payload already decoded.
  datatype Row = Row(id: int, sample: Sample)

  // Where a write transaction breaks down, if it does.
  datatype TxFault = NoTxFault | BeginFails | PrepareFails | ExecFails(at: nat) | CommitFails

  // Where a read breaks down, if it does.
  datatype ReadFault = NoReadFault | QueryFails | ScanFails(at: nat) | IterationFails

  // Unreadable JSON comes back as the zero sample, whose asset id is empty.
  function Decode(p: Payload): Sample {
    match p
    case Json(s) => s
    case Garbage => EMPTY_SAMPLE
  }

  function Opened(rows: seq<Stored>): (r: seq<Row>)
    ensures |r| == |rows|
  {
    seq(|rows|, i requires 0 <= i < |rows| => Row(rows[i].id, Decode(rows[i].payload)))
  }

  ghost predicate Ascending(rows: seq<Stored>) {
    forall i, j | 0 <= i < j < |rows| :: rows[i].id < rows[j].id
  }

  // A table an AUTOINCREMENT sequence that stands at `last` can have produced.
  ghost predicate WellFormed(rows: seq<Stored>, last: int) {
    && Ascending(rows)
    && (forall r | r in rows :: 1 <= r.id <= last && (r.payload.Json? ==> Encodable(r.payload.sample)))
  }

  // The rows that inserting `ss` one after the other creates.
  function Numbered(ss: seq<Sample>, last: int): (r: seq<Stored>)
    ensures |r| == |ss|
  {
    seq(|ss|, i requires 0 <= i < |ss| => Stored(last + 1 + i, Json(ss[i])))
  }

  function Ids(rows: seq<Stored>): (r: seq<int>)
    ensures |r| == |rows|
  {
    seq(|rows|, i requires 0 <= i < |rows| => rows[i].id)
  }

  function IdSet(ids: seq<int>): set<int> {
    set id | id in ids
  }

  // The table after DELETE of every id in `ids`.
  function Without(rows: seq<Stored>, ids: set<int>): seq<Stored> {
    if rows == [] then []
    else (if rows[0].id in ids then [] else [rows[0]]) + Without(rows[1..], ids)
  }

  function Min(a: nat, b: nat): nat {
    if a < b then a else b
  }

  lemma {:induction false} WithoutNone(rows: seq<Stored>)
    ensures Without(rows, {}) == rows
  {
    if rows != [] {
      WithoutNone(rows[1..]);
    }
  }

  lemma {:induction false} WithoutTwice(rows: seq<Stored>, a: set<int>, b: set<int>)
    ensures Without(Without(rows, a), b) == Without(rows, a + b)
  {
    if rows != [] {
      var rest := Without(rows[1..], a);
      WithoutTwice(rows[1..], a, b);
      if rows[0].id in a {
        assert Without(rows, a) == rest;
      } else {
        assert ([rows[0]] + rest)[1..] == rest;
      }
    }
  }

  lemma {:induction false} WithoutAbsent(rows: seq<Stored>, ids: set<int>)
    requires forall i | 0 <= i < |rows| :: rows[i].id !in ids
    ensures Without(rows, ids) == rows
  {
    if rows != [] {
      WithoutAbsent(rows[1..], ids);
    }
  }

  // Deleting the ids of a drained prefix leaves exactly the rows behind it,
  // including any row enqueued after the drain.
  lemma {:induction false} AckRemovesExactlyThePrefix(rows: seq<Stored>, k: nat)
    requires Ascending(rows) && k <= |rows|
    ensures Without(rows, IdSet(Ids(rows[..k]))) == rows[k..]
  {
    var ids := IdSet(Ids(rows[..k]));
    assert forall i | 0 <= i < k :: rows[i].id in ids by {
      forall i | 0 <= i < k ensures rows[i].id in ids {
        assert Ids(rows[..k])[i] == rows[i].id;
      }
    }
    WithoutSuffix(rows, ids, k);
  }

  lemma {:induction false} WithoutSuffix(rows: seq<Stored>, ids: set<int>, k: nat)
    requires k <= |rows|
    requires forall i | 0 <= i < |rows| :: rows[i].id in ids <==> i < k
    ensures Without(rows, ids) == rows[k..]
  {
    if k == 0 {
      WithoutAbsent(rows, ids);
    } else {
      assert forall i | 0 <= i < |rows| - 1 :: rows[1..][i] == rows[i + 1];
      WithoutSuffix(rows[1..], ids, k - 1);
      assert rows[1..][k - 1..] == rows[k..];
    }
  }

  // An id handed out once is never handed out again, whatever was deleted since.
  lemma {:induction false} IdsNeverReused(rows: seq<Stored>, last: int, ids: set<int>, ss: seq<Sample>)
    requires WellFormed(rows, last)
    requires forall s | s in ss :: Encodable(s)
    requires last >= 0
    ensures WellFormed(Without(rows, ids) + Numbered(ss, last), last + |ss|)
    ensures forall i | 0 <= i < |ss| :: Numbered(ss, last)[i].id > last
    ensures forall r | r in Without(rows, ids) :: r in rows
  {
    WithoutKeepsOrder(rows, ids);
  }

  lemma {:induction false} WithoutSelects(rows: seq<Stored>, ids: set<int>, r: Stored)
    requires r in Without(rows, ids)
    ensures r in rows
  {
    if r in Without(rows[1..], ids) {
      WithoutSelects(rows[1..], ids, r);
    }
  }

  lemma TailAscends(rows: seq<Stored>)
    requires Ascending(rows) && rows != []
    ensures Ascending(rows[1..]) && forall r | r in rows[1..] :: rows[0].id < r.id
  {
    assert forall i | 0 <= i < |rows| - 1 :: rows[1..][i] == rows[i + 1];
  }

  lemma ConsKeepsOrder(first: Stored, rest: seq<Stored>)
    requires Ascending(rest) && forall r | r in rest :: first.id < r.id
    ensures Ascending([first] + rest)
  {
  }

  lemma {:induction false} WithoutKeepsOrder(rows: seq<Stored>, ids: set<int>)
    requires Ascending(rows)
    ensures Ascending(Without(rows, ids))
    ensures forall r | r in Without(rows, ids) :: r in rows
  {
    if rows != [] {
      TailAscends(rows);
      WithoutKeepsOrder(rows[1..], ids);
      ConsKeepsOrder(rows[0], Without(rows[1..], ids));
    }
    forall r | r in Without(rows, ids) ensures r in rows {
      WithoutSelects(rows, ids, r);
    }
  }

  class Buffer {
    var rows: seq<Stored>
    var lastId: int

    ghost predicate Valid()
      reads this
    {
      lastId >= 0 && WellFormed(rows, lastId)
    }

    constructor (existing: seq<Stored>, last: int)
      requires last >= 0 && WellFormed(existing, last)
      ensures Valid() && rows == existing && lastId == last
    {
      rows, lastId := existing, last;
    }

    method Enqueue(s: Sample, insertFails: bool) returns (ok: bool)
      requires Valid()
      modifies this
      ensures Valid()
      ensures ok <==> Encodable(s) && !insertFails
      ensures rows == old(rows) + (if ok then Numbered([s], old(lastId)) else [])
      ensures lastId == old(lastId) + (if ok then 1 else 0)
    {
      if !Encodable(s) || insertFails {
        return false;
      }
      rows := rows + [Stored(lastId + 1, Json(s))];
      lastId := lastId + 1;
      assert Numbered([s], old(lastId)) == [Stored(old(lastId) + 1, Json(s))];
      return true;
    }

    // Inserts run on a copy of the table that only the commit makes visible.
    method EnqueueBatch(ss: seq<Sample>, fault: TxFault) returns (ok: bool)
      requires Valid()
      modifies this
      ensures Valid()
      ensures ok <==> ss == [] ||
                      ((forall s | s in ss :: Encodable(s)) &&
                       (fault == NoTxFault || (fault.ExecFails? && fault.at >= |ss|)))
      ensures rows == old(rows) + (if ok then Numbered(ss, old(lastId)) else [])
      ensures lastId == old(lastId) + (if ok then |ss| else 0)
    {
      if |ss| == 0 {
        return true;
      }
      if fault.BeginFails? || fault.PrepareFails? {
        return false;
      }
      var tx, last := rows, lastId;
      for i := 0 to |ss|
        invariant forall j | 0 <= j < i :: Encodable(ss[j])
        invariant fault.ExecFails? ==> fault.at >= i
        invariant tx == rows + Numbered(ss[..i], lastId) && last == lastId + i
        invariant unchanged(this)
      {
        if !Encodable(ss[i]) {
          assert ss[i] in ss;
          return false;
        }
        if fault == ExecFails(i) {
          return false;
        }
        tx, last := tx + [Stored(last + 1, Json(ss[i]))], last + 1;
        assert Numbered(ss[..i + 1], lastId) == Numbered(ss[..i], lastId) + [Stored(lastId + 1 + i, Json(ss[i]))];
      }
      assert ss[..|ss|] == ss;
      if fault.CommitFails? {
        return false;
      }
      rows, lastId := tx, last;
      return true;
    }

    method Drain(limit: int, fault: ReadFault) returns (ok: bool, out: seq<Row>)
      requires Valid()
      ensures var n := Min(if limit <= 0 then 500 else limit, |rows|);
              && (ok <==> !fault.QueryFails? && !fault.IterationFails? && !(fault.ScanFails? && fault.at < n))
              && (ok ==> out == Opened(rows[..n]))
      ensures forall i | 0 <= i < |out| :: Encodable(out[i].sample)
    {
      var batchLimit := limit;
      if batchLimit <= 0 {
        batchLimit := 500;
      }
      var n := Min(batchLimit, |rows|);
      out := [];
      if fault.QueryFails? {
        return false, [];
      }
      for i := 0 to n
        invariant out == Opened(rows[..i])
        invariant fault.ScanFails? ==> fault.at >= i
      {
        if fault == ScanFails(i) {
          return false, [];
        }
        out := out + [Row(rows[i].id, Decode(rows[i].payload))];
      }
      ok := !fault.IterationFails?;
    }

    method Ack(ids: seq<int>, fault: TxFault) returns (ok: bool)
      requires Valid()
      modifies this
      ensures Valid()
      ensures ok <==> ids == [] || fault == NoTxFault || (fault.ExecFails? && fault.at >= |ids|)
      ensures rows == if ok then Without(old(rows), IdSet(ids)) else old(rows)
      ensures lastId == old(lastId)
    {
      if |ids| == 0 {
        WithoutNone(rows);
        assert IdSet(ids) == {};
        return true;
      }
      if fault.BeginFails? || fault.PrepareFails? {
        return false;
      }
      var tx := rows;
      WithoutNone(rows);
      assert IdSet(ids[..0]) == {};
      for i := 0 to |ids|
        invariant fault.ExecFails? ==> fault.at >= i
        invariant tx == Without(rows, IdSet(ids[..i]))
        invariant unchanged(this)
      {
        if fault == ExecFails(i) {
          return false;
        }
        WithoutTwice(rows, IdSet(ids[..i]), {ids[i]});
        assert IdSet(ids[..i + 1]) == IdSet(ids[..i]) + {ids[i]};
        tx := Without(tx, {ids[i]});
      }
      assert ids[..|ids|] == ids;
      if fault.CommitFails? {
        return false;
      }
      WithoutKeepsOrder(rows, IdSet(ids));
      rows := tx;
      return true;
    }
  }
}
