// The bounded per-server reservoir of (name, type) counts, and the snapshot
// that ships its largest entries and resets it.
module TopK {
  const CAP := 5000
  const SHIP := 100

  datatype Key = Key(name: string, qtype: string)
  datatype Entry = Entry(key: Key, count: nat)

  type Counts = map<Key, nat>

  // ------------------------------------------------------------ the statistic

  function Count(s: seq<Key>, k: Key): nat {
    if s == [] then 0 else Count(s[..|s| - 1], k) + (if s[|s| - 1] == k then 1 else 0)
  }

  function Distinct(s: seq<Key>): set<Key> {
    set k | k in s
  }

  // k is one of the first 5000 distinct keys of the stream.
  ghost predicate Early(s: seq<Key>, k: Key) {
    exists i :: 0 <= i < |s| && s[i] == k && k !in s[..i] && |Distinct(s[..i])| < 5000
  }

  // One more query counted.
  function Bump(b: Counts, k: Key): Counts {
    if k in b then b[k := b[k] + 1] else if |b| >= CAP then b else b[k := 1]
  }

  // The reservoir of a whole stream.
  function Tally(s: seq<Key>): Counts {
    if s == [] then map[] else Bump(Tally(s[..|s| - 1]), s[|s| - 1])
  }

  lemma DistinctGrows(s: seq<Key>)
    requires s != []
    ensures Distinct(s) == Distinct(s[..|s| - 1]) + {s[|s| - 1]}
  {
    assert s == s[..|s| - 1] + [s[|s| - 1]];
  }

  // Until it is full the reservoir tracks every key seen.
  lemma {:induction false} TallyFills(s: seq<Key>)
    ensures Tally(s).Keys <= Distinct(s)
    ensures |Tally(s)| == if |Distinct(s)| < 5000 then |Distinct(s)| else 5000
    ensures |Distinct(s)| < 5000 ==> Tally(s).Keys == Distinct(s)
  {
    if s != [] {
      var init, k := s[..|s| - 1], s[|s| - 1];
      TallyFills(init);
      DistinctGrows(s);
      if k !in Tally(init) && |Tally(init)| < CAP {
        assert Tally(s).Keys == Tally(init).Keys + {k};
      } else {
        assert Tally(s).Keys == Tally(init).Keys;
        if k in Tally(init) {
          assert Distinct(s) == Distinct(init);
        } else {
          KeysFit(init, s);
        }
      }
    }
  }

  lemma KeysFit(init: seq<Key>, s: seq<Key>)
    requires Distinct(init) <= Distinct(s) && |Distinct(init)| >= CAP
    ensures |Distinct(s)| >= CAP
  {
    var more := Distinct(s) - Distinct(init);
    assert Distinct(s) == Distinct(init) + more;
  }

  // The tracked keys are exactly the first 5000 distinct keys of the stream,
  // each with the exact number of its occurrences.
  lemma {:induction false} TallyIsExact(s: seq<Key>, k: Key)
    ensures k in Tally(s) <==> Early(s, k)
    ensures k in Tally(s) ==> Tally(s)[k] == Count(s, k)
  {
    if s == [] {
      assert !Early(s, k);
    } else {
      var n := |s| - 1;
      var init := s[..n];
      TallyIsExact(init, k);
      TallyFills(init);
      EarlyGrows(s, k);
      if s[n] == k && k !in Tally(init) {
        if k in init {
          FullBefore(init, k);
        } else {
          CountAbsent(init, k);
        }
      }
    }
  }

  lemma {:induction false} CountAbsent(s: seq<Key>, k: Key)
    requires k !in s
    ensures Count(s, k) == 0
  {
    if s != [] {
      CountAbsent(s[..|s| - 1], k);
    }
  }

  lemma EarlyGrows(s: seq<Key>, k: Key)
    requires s != []
    ensures var n := |s| - 1;
            Early(s, k) <==> Early(s[..n], k) || (s[n] == k && k !in s[..n] && |Distinct(s[..n])| < CAP)
  {
    var n := |s| - 1;
    var init := s[..n];
    if Early(init, k) {
      var i :| 0 <= i < |init| && init[i] == k && k !in init[..i] && |Distinct(init[..i])| < CAP;
      assert init[..i] == s[..i];
      assert s[i] == k;
    }
    if Early(s, k) {
      var i :| 0 <= i < |s| && s[i] == k && k !in s[..i] && |Distinct(s[..i])| < CAP;
      if i < n {
        assert init[..i] == s[..i] && init[i] == k;
      }
    }
  }

  // A key that was seen and is not tracked was turned away by a full reservoir.
  lemma FullBefore(s: seq<Key>, k: Key)
    requires k in s && k !in Tally(s)
    ensures |Tally(s)| == CAP
  {
    TallyFills(s);
    assert k in Distinct(s);
  }

  // ---------------------------------------------------------------- snapshot

  // The entries of b, each once, in some order.
  ghost predicate Lists(all: seq<Entry>, b: Counts) {
    && |all| == |b|
    && (forall i | 0 <= i < |all| :: all[i].key in b && b[all[i].key] == all[i].count)
    && (forall i, j | 0 <= i < j < |all| :: all[i].key != all[j].key)
  }

  ghost predicate Descending(all: seq<Entry>) {
    forall i, j | 0 <= i < j < |all| :: all[i].count >= all[j].count
  }

  function KeySet(all: seq<Entry>): set<Key> {
    set i | 0 <= i < |all| :: all[i].key
  }

  lemma {:induction false} KeySetSize(all: seq<Entry>)
    requires forall i, j | 0 <= i < j < |all| :: all[i].key != all[j].key
    ensures |KeySet(all)| == |all|
  {
    if all != [] {
      var init, last := all[..|all| - 1], all[|all| - 1];
      KeySetSize(init);
      assert KeySet(all) == KeySet(init) + {last.key} by {
        forall k | k in KeySet(all) ensures k in KeySet(init) + {last.key} {
          var i :| 0 <= i < |all| && all[i].key == k;
          if i < |init| {
            assert init[i].key == k;
          }
        }
        forall k | k in KeySet(init) ensures k in KeySet(all) {
          var i :| 0 <= i < |init| && init[i].key == k;
          assert all[i].key == k;
        }
      }
    }
  }

  lemma SubsetOfSameSize<T>(a: set<T>, b: set<T>)
    requires a <= b && |a| == |b|
    ensures a == b
  {
    assert b == a + (b - a);
  }

  // A listing leaves no key out.
  lemma ListsAll(all: seq<Entry>, b: Counts, k: Key)
    requires Lists(all, b) && k in b
    ensures exists i :: 0 <= i < |all| && all[i].key == k
  {
    KeySetSize(all);
    SubsetOfSameSize(KeySet(all), b.Keys);
  }

  method Collect(b: Counts) returns (all: array<Entry>)
    ensures fresh(all) && Lists(all[..], b)
  {
    var out: seq<Entry> := [];
    var todo := b.Keys;
    while todo != {}
      invariant todo <= b.Keys && |out| == |b.Keys| - |todo|
      invariant forall i | 0 <= i < |out| :: out[i].key in b && out[i].key !in todo && b[out[i].key] == out[i].count
      invariant forall i, j | 0 <= i < j < |out| :: out[i].key != out[j].key
      decreases todo
    {
      var k :| k in todo;
      todo := todo - {k};
      out := out + [Entry(k, b[k])];
    }
    all := new Entry[|out|](i requires 0 <= i < |out| => out[i]);
    assert all[..] == out;
  }

  lemma SwapLists(s: seq<Entry>, t: seq<Entry>, b: Counts, i: nat, j: nat)
    requires Lists(s, b) && i < j < |s| && t == s[i := s[j]][j := s[i]]
    ensures Lists(t, b)
  {
  }

  // Moves entry i left to its place among the sorted entries before it.
  method Sink(all: array<Entry>, i: nat, ghost b: Counts)
    requires i < all.Length && Lists(all[..], b) && Descending(all[..i])
    modifies all
    ensures Lists(all[..], b) && Descending(all[..i + 1])
  {
    var j := i;
    while j > 0 && all[j].count > all[j - 1].count
      invariant 0 <= j <= i
      invariant Lists(all[..], b)
      invariant forall p, q | 0 <= p < q <= i && q != j :: all[p].count >= all[q].count
      decreases j
    {
      ghost var before := all[..];
      all[j], all[j - 1] := all[j - 1], all[j];
      SwapLists(before, all[..], b, j - 1, j);
      j := j - 1;
    }
  }

  // Insertion sort by swapping neighbours, largest count first.
  method SortByCount(all: array<Entry>, ghost b: Counts)
    requires Lists(all[..], b)
    modifies all
    ensures Lists(all[..], b) && Descending(all[..])
  {
    if all.Length == 0 {
      return;
    }
    for i := 1 to all.Length
      invariant Lists(all[..], b) && Descending(all[..i])
    {
      Sink(all, i, b);
    }
    assert all[..all.Length] == all[..];
  }

  // --------------------------------------------------------------- reservoir

  class Reservoir {
    var bucket: map<string, Counts>
    // The queries of each server since its last snapshot.
    ghost var streams: map<string, seq<Key>>

    ghost predicate Valid()
      reads this
    {
      bucket.Keys == streams.Keys && forall id | id in bucket :: bucket[id] == Tally(streams[id])
    }

    constructor ()
      ensures Valid() && streams == map[]
    {
      bucket, streams := map[], map[];
    }

    ghost function Stream(id: string): seq<Key>
      reads this
    {
      if id in streams then streams[id] else []
    }

    // Counting for one server leaves every other server's stream alone.
    method Record(id: string, name: string, qtype: string)
      requires Valid()
      modifies this
      ensures Valid()
      ensures streams == old(streams)[id := old(Stream(id)) + [Key(name, qtype)]]
    {
      var k := Key(name, qtype);
      ghost var s := Stream(id);
      assert (s + [k])[..|s|] == s;
      streams := streams[id := s + [k]];
      var b := if id in bucket then bucket[id] else map[];
      assert b == Tally(s);
      if k in b {
        bucket := bucket[id := b[k := b[k] + 1]];
        return;
      }
      if |b| >= CAP {
        bucket := bucket[id := b];
        return;
      }
      bucket := bucket[id := b[k := 1]];
    }

    // The largest hundred entries in descending order, each an exact count of the
    // server's stream since the last snapshot; the server starts afresh.
    method Snapshot(id: string) returns (out: seq<Entry>)
      requires Valid()
      modifies this
      ensures Valid()
      ensures streams == old(streams) - {id}
      ensures var s := old(Stream(id));
              && |out| == (if |Tally(s)| < 100 then |Tally(s)| else 100)
              && Descending(out)
              && (forall i, j | 0 <= i < j < |out| :: out[i].key != out[j].key)
              && (forall i | 0 <= i < |out| :: Early(s, out[i].key) && out[i].count == Count(s, out[i].key))
              && (forall k, i | Early(s, k) && k !in KeySet(out) && 0 <= i < |out| :: Count(s, k) <= out[i].count)
    {
      ghost var s := Stream(id);
      var b := if id in bucket then bucket[id] else map[];
      bucket := bucket - {id};
      streams := streams - {id};
      var all := Collect(b);
      SortByCount(all, b);
      var n := if all.Length > SHIP then SHIP else all.Length;
      out := all[..n];
      forall i | 0 <= i < n ensures Early(s, out[i].key) && out[i].count == Count(s, out[i].key) {
        TallyIsExact(s, out[i].key);
      }
      assert forall m | 0 <= m < n :: all[..][m] == out[m] && out[m].key in KeySet(out);
      forall k, i | Early(s, k) && k !in KeySet(out) && 0 <= i < |out| ensures Count(s, k) <= out[i].count {
        TallyIsExact(s, k);
        ListsAll(all[..], b, k);
        var m :| 0 <= m < all.Length && all[..][m].key == k;
        assert m >= n;
      }
    }
  }
}
