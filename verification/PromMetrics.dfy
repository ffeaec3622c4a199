// Folding a Prometheus exposition into one snapshot.
module PromMetrics {
  import opened PromText
  import opened Wrappers

  // A bucket's upper bound.
  datatype Bound = Finite(r: real) | PlusInf

  datatype Snapshot = Snapshot(
    requests: int, noError: int, nxDomain: int, servFail: int, buckets: map<Bound, int>, durations: int)

  const EMPTY := Snapshot(0, 0, 0, 0, map[], 0)

  // What one line adds to the snapshot.
  datatype Effect =
    | Nothing
    | Requests(n: int)
    | NoError(n: int)
    | NxDomain(n: int)
    | ServFail(n: int)
    | Durations(n: int)
    | Bucket(le: Bound, n: int)

  // int64(v): towards zero.
  function Trunc(v: real): int {
    if v >= 0.0 then v.Floor else -(-v).Floor
  }

  function Upper(s: string): string {
    seq(|s|, i requires 0 <= i < |s| => if 'a' <= s[i] <= 'z' then s[i] - 'a' + 'A' else s[i])
  }

  function LabelOf(labels: map<string, string>, k: string): string {
    if k in labels then labels[k] else ""
  }

  function BucketOf(b: map<Bound, int>, le: Bound): int {
    if le in b then b[le] else 0
  }

  // strconv.ParseFloat of the le label; None where it fails.
  type ParseLe = string -> Option<Bound>

  function BucketEffect(labels: map<string, string>, v: real, parseLe: ParseLe): Effect {
    match parseLe(LabelOf(labels, "le"))
    case None => Nothing
    case Some(le) => Bucket(le, Trunc(v))
  }

  function CoreDNSEffect(name: string, labels: map<string, string>, v: real, parseLe: ParseLe): Effect {
    if name == "coredns_dns_requests_total" then Requests(Trunc(v))
    else if name == "coredns_dns_responses_total" then
      var rcode := Upper(LabelOf(labels, "rcode"));
      if rcode == "NOERROR" then NoError(Trunc(v))
      else if rcode == "NXDOMAIN" then NxDomain(Trunc(v))
      else if rcode == "SERVFAIL" then ServFail(Trunc(v))
      else Nothing
    else if name == "coredns_dns_request_duration_seconds_bucket" then BucketEffect(labels, v, parseLe)
    else if name == "coredns_dns_request_duration_seconds_count" then Durations(Trunc(v))
    else Nothing
  }

  function HickoryEffect(name: string, labels: map<string, string>, v: real, parseLe: ParseLe): Effect {
    if name == "hickory_request_record_types_total" then Requests(Trunc(v))
    else if name == "hickory_resolver_cache_miss_duration_seconds_bucket" then BucketEffect(labels, v, parseLe)
    else if name == "hickory_resolver_cache_miss_duration_seconds_count" then Durations(Trunc(v))
    else Nothing
  }

  function LineEffect(l: Line, parseLe: ParseLe): Effect {
    match l
    case NoSample => Nothing
    case Series(name, labels, v) =>
      if "coredns_" <= name then CoreDNSEffect(name, labels, v, parseLe)
      else if "hickory_" <= name then HickoryEffect(name, labels, v, parseLe)
      else Nothing
  }

  // What a line adds to the snapshot.
  type Reader = string -> Effect

  function ReaderOf(parse: ParseValue, parseLe: ParseLe): Reader {
    (raw: string) => LineEffect(ParseLine(raw, parse), parseLe)
  }

  function Absorb(c: Snapshot, e: Effect): Snapshot {
    match e
    case Nothing => c
    case Requests(n) => c.(requests := c.requests + n)
    case NoError(n) => c.(noError := c.noError + n)
    case NxDomain(n) => c.(nxDomain := c.nxDomain + n)
    case ServFail(n) => c.(servFail := c.servFail + n)
    case Durations(n) => c.(durations := c.durations + n)
    case Bucket(le, n) => c.(buckets := c.buckets[le := BucketOf(c.buckets, le) + n])
  }

  function Folded(lines: seq<string>, read: Reader): Snapshot {
    if lines == [] then EMPTY else Absorb(Folded(lines[..|lines| - 1], read), read(lines[|lines| - 1]))
  }

  method ParsePromText(text: string, parse: ParseValue, parseLe: ParseLe) returns (c: Snapshot)
    ensures c == Folded(Split(text, '\n'), ReaderOf(parse, parseLe))
  {
    c := EMPTY;
    var lines := Split(text, '\n');
    ghost var read := ReaderOf(parse, parseLe);
    for i := 0 to |lines|
      invariant c == Folded(lines[..i], read)
    {
      assert lines[..i + 1][..i] == lines[..i];
      var line := ParsePromLine(lines[i], parse);
      c := Absorb(c, LineEffect(line, parseLe));
    }
    assert lines[..|lines|] == lines;
  }

  // Two expositions added up, counter by counter.
  function Merge(a: Snapshot, b: Snapshot): Snapshot {
    Snapshot(a.requests + b.requests, a.noError + b.noError, a.nxDomain + b.nxDomain, a.servFail + b.servFail,
             map le | le in a.buckets.Keys + b.buckets.Keys :: BucketOf(a.buckets, le) + BucketOf(b.buckets, le),
             a.durations + b.durations)
  }

  lemma MergeAbsorb(a: Snapshot, c: Snapshot, e: Effect)
    ensures Absorb(Merge(a, c), e) == Merge(a, Absorb(c, e))
  {
    if e.Bucket? {
      assert Absorb(Merge(a, c), e).buckets == Merge(a, Absorb(c, e)).buckets;
    }
  }

  lemma MergeUnit(a: Snapshot)
    ensures Merge(a, EMPTY) == a
  {
  }

  lemma MergeCommutes(a: Snapshot, b: Snapshot)
    ensures Merge(a, b) == Merge(b, a)
  {
  }

  // ----------------------------------------------------------- concatenation

  type Merger = (Snapshot, Snapshot) -> Snapshot

  // How a merge must behave for folding to distribute over concatenation.
  ghost predicate Absorbs(merge: Merger, x: Snapshot, c: Snapshot, e: Effect) {
    Absorb(merge(x, c), e) == merge(x, Absorb(c, e))
  }

  ghost predicate HasUnit(merge: Merger, x: Snapshot) {
    merge(x, EMPTY) == x
  }

  ghost predicate Merges(merge: Merger) {
    (forall x :: HasUnit(merge, x)) && (forall x, c, e :: Absorbs(merge, x, c, e))
  }

  lemma FoldedSnoc(lines: seq<string>, init: seq<string>, l: string, read: Reader)
    requires lines == init + [l]
    ensures Folded(lines, read) == Absorb(Folded(init, read), read(l))
  {
    assert lines[..|lines| - 1] == init;
  }

  lemma {:induction false} FoldedConcatBy(a: seq<string>, b: seq<string>, read: Reader, merge: Merger)
    requires Merges(merge)
    ensures Folded(a + b, read) == merge(Folded(a, read), Folded(b, read))
    decreases |b|
  {
    if b == [] {
      assert a + b == a;
      assert HasUnit(merge, Folded(a, read));
    } else {
      var init, l := b[..|b| - 1], b[|b| - 1];
      assert b == init + [l];
      FoldedConcatBy(a, init, read, merge);
      Reassociate(a, init, [l]);
      FoldedSnoc(a + b, a + init, l, read);
      FoldedSnoc(b, init, l, read);
      assert Absorbs(merge, Folded(a, read), Folded(init, read), read(l));
    }
  }

  // Parsing distributes over concatenation of expositions.
  lemma {:induction false} FoldedConcat(a: seq<string>, b: seq<string>, read: Reader)
    ensures Folded(a + b, read) == Merge(Folded(a, read), Folded(b, read))
  {
    forall x ensures HasUnit(Merge, x) {
      MergeUnit(x);
    }
    forall x, c, e ensures Absorbs(Merge, x, c, e) {
      MergeAbsorb(x, c, e);
    }
    FoldedConcatBy(a, b, read, Merge);
  }

  // The same of texts that are joined by a line break.
  lemma {:induction false} TextConcat(a: string, b: string, read: Reader)
    ensures Folded(Split(a + ['\n'] + b, '\n'), read)
         == Merge(Folded(Split(a, '\n'), read), Folded(Split(b, '\n'), read))
  {
    SplitJoin(a, '\n', b);
    FoldedConcat(Split(a, '\n'), Split(b, '\n'), read);
  }

  // ------------------------------------------------------------------- order

  lemma {:induction false} SwapBlocks(a: seq<string>, b: seq<string>, read: Reader)
    ensures Folded(a + b, read) == Folded(b + a, read)
  {
    FoldedConcat(a, b, read);
    FoldedConcat(b, a, read);
    MergeCommutes(Folded(a, read), Folded(b, read));
  }

  // The order of the lines does not matter.
  lemma {:induction false} FoldedAnyOrder(a: seq<string>, b: seq<string>, read: Reader)
    requires multiset(a) == multiset(b)
    ensures Folded(a, read) == Folded(b, read)
    decreases |a|
  {
    if a == [] {
      assert |multiset(b)| == 0;
    } else {
      var init, l := a[..|a| - 1], a[|a| - 1];
      assert a == init + [l];
      var before, after := TakeOut(init, l, b);
      SwapBlocks(before + [l], after, read);
      SwapBlocks(before, after, read);
      FoldedAnyOrder(init, before + after, read);
      FoldedSnoc(a, init, l, read);
      Reassociate(after, before, [l]);
      FoldedSnoc(after + (before + [l]), after + before, l, read);
    }
  }

  lemma TakeOut<T>(init: seq<T>, l: T, b: seq<T>) returns (before: seq<T>, after: seq<T>)
    requires multiset(init + [l]) == multiset(b)
    ensures b == before + [l] + after
    ensures multiset(init) == multiset(before + after)
  {
    assert multiset(init + [l]) == multiset(init) + multiset{l};
    assert l in multiset(b);
    var i :| 0 <= i < |b| && b[i] == l;
    before, after := b[..i], b[i + 1..];
    assert b == before + [l] + after;
    CancelOne(multiset(init), multiset(before), multiset(after), l);
  }

  lemma CancelOne<T>(m: multiset<T>, x: multiset<T>, y: multiset<T>, l: T)
    requires m + multiset{l} == x + multiset{l} + y
    ensures m == x + y
  {
    assert m == (m + multiset{l}) - multiset{l};
    assert x + y == (x + multiset{l} + y) - multiset{l};
  }

  // ---------------------------------------------------- counters by their names

  // Truncation is towards zero.
  lemma TruncMeaning(v: real)
    ensures v >= 0.0 ==> 0 <= Trunc(v) && Trunc(v) as real <= v < Trunc(v) as real + 1.0
    ensures v <= 0.0 ==> Trunc(v) <= 0 && Trunc(v) as real - 1.0 < v <= Trunc(v) as real
  {
  }

  // Which series count.
  type Selection = (string, map<string, string>) -> bool

  predicate IsRequests(name: string, labels: map<string, string>) {
    name == "coredns_dns_requests_total" || name == "hickory_request_record_types_total"
  }

  predicate IsDurations(name: string, labels: map<string, string>) {
    name == "coredns_dns_request_duration_seconds_count" || name == "hickory_resolver_cache_miss_duration_seconds_count"
  }

  predicate IsResponse(name: string) {
    name == "coredns_dns_responses_total"
  }

  predicate IsHistogram(name: string) {
    || name == "coredns_dns_request_duration_seconds_bucket"
    || name == "hickory_resolver_cache_miss_duration_seconds_bucket"
  }

  // The word in capitals, small letters, or a mixture.
  predicate InAnyCase(s: string, word: string) {
    |s| == |word| && forall i | 0 <= i < |s| :: s[i] == word[i] || s[i] as int == word[i] as int + 32
  }

  function IsResponses(rcode: string): Selection {
    (name: string, labels: map<string, string>) => IsResponse(name) && InAnyCase(LabelOf(labels, "rcode"), rcode)
  }

  function IsBucket(le: Bound, parseLe: ParseLe): Selection {
    (name: string, labels: map<string, string>) => IsHistogram(name) && parseLe(LabelOf(labels, "le")) == Some(le)
  }

  function Counted(l: Line, counts: Selection): int {
    if l.Series? && counts(l.name, l.labels) then Trunc(l.value) else 0
  }

  // The values of the series that count, added up.
  function Sum(lines: seq<Line>, counts: Selection): int {
    if lines == [] then 0 else Sum(lines[..|lines| - 1], counts) + Counted(lines[|lines| - 1], counts)
  }

  predicate Occurs(lines: seq<Line>, counts: Selection) {
    exists i :: 0 <= i < |lines| && lines[i].Series? && counts(lines[i].name, lines[i].labels)
  }

  function ReadLines(lines: seq<string>, parse: ParseValue): (r: seq<Line>)
    ensures |r| == |lines|
  {
    seq(|lines|, i requires 0 <= i < |lines| => ParseLine(lines[i], parse))
  }

  predicate IsWord(word: string) {
    forall i | 0 <= i < |word| :: 'A' <= word[i] <= 'Z'
  }

  lemma UpperIsInAnyCase(s: string, word: string)
    requires IsWord(word)
    ensures Upper(s) == word <==> InAnyCase(s, word)
  {
    if Upper(s) == word {
      forall i | 0 <= i < |s| ensures s[i] == word[i] || s[i] as int == word[i] as int + 32 {
        assert Upper(s)[i] == word[i];
      }
    }
    if InAnyCase(s, word) {
      assert Upper(s) == word;
    }
  }

  // The names tell the counters apart, and the engines.
  lemma NamesDiffer(name: string)
    ensures IsRequests(name, map[]) ==> !IsDurations(name, map[]) && !IsResponse(name) && !IsHistogram(name)
    ensures IsDurations(name, map[]) ==> !IsResponse(name) && !IsHistogram(name)
    ensures IsResponse(name) ==> !IsHistogram(name)
  {
  }

  lemma CoreDNSPrefixes()
    ensures "coredns_" <= "coredns_dns_requests_total" && "coredns_" <= "coredns_dns_responses_total"
    ensures "coredns_" <= "coredns_dns_request_duration_seconds_bucket"
    ensures "coredns_" <= "coredns_dns_request_duration_seconds_count"
  {
  }

  lemma HickoryPrefix()
    ensures "hickory_" <= "hickory_request_record_types_total"
  {
  }

  lemma HickoryPrefixes()
    ensures "hickory_" <= "hickory_resolver_cache_miss_duration_seconds_bucket"
    ensures "hickory_" <= "hickory_resolver_cache_miss_duration_seconds_count"
  {
  }

  lemma OnePrefix(name: string)
    requires "hickory_" <= name
    ensures !("coredns_" <= name)
  {
    assert name[0] == "hickory_"[0];
  }

  function ResponseEffect(rcode: string, n: int): Effect {
    if InAnyCase(rcode, "NOERROR") then NoError(n)
    else if InAnyCase(rcode, "NXDOMAIN") then NxDomain(n)
    else if InAnyCase(rcode, "SERVFAIL") then ServFail(n)
    else Nothing
  }

  lemma ResponseByRcode(rcode: string, n: int)
    ensures ResponseEffect(rcode, n) ==
            if Upper(rcode) == "NOERROR" then NoError(n)
            else if Upper(rcode) == "NXDOMAIN" then NxDomain(n)
            else if Upper(rcode) == "SERVFAIL" then ServFail(n)
            else Nothing
  {
    UpperIsInAnyCase(rcode, "NOERROR");
    UpperIsInAnyCase(rcode, "NXDOMAIN");
    UpperIsInAnyCase(rcode, "SERVFAIL");
  }

  // Which counter a series feeds depends on its name alone, and for responses
  // on the rcode.
  lemma {:induction false} EffectByName(name: string, labels: map<string, string>, v: real, parseLe: ParseLe)
    ensures LineEffect(Series(name, labels, v), parseLe) ==
            if IsRequests(name, labels) then Requests(Trunc(v))
            else if IsDurations(name, labels) then Durations(Trunc(v))
            else if IsResponse(name) then ResponseEffect(LabelOf(labels, "rcode"), Trunc(v))
            else if IsHistogram(name) then BucketEffect(labels, v, parseLe)
            else Nothing
  {
    CoreDNSPrefixes();
    HickoryPrefix();
    HickoryPrefixes();
    if "hickory_" <= name {
      OnePrefix(name);
    }
    NamesDiffer(name);
    ResponseByRcode(LabelOf(labels, "rcode"), Trunc(v));
  }

  lemma RcodesDiffer(s: string)
    ensures InAnyCase(s, "NOERROR") ==> !InAnyCase(s, "NXDOMAIN") && !InAnyCase(s, "SERVFAIL")
    ensures InAnyCase(s, "NXDOMAIN") ==> !InAnyCase(s, "SERVFAIL")
  {
    assert |"NOERROR"| == 7 && |"NXDOMAIN"| == 8 && "NXDOMAIN"[0] == 'N' && "SERVFAIL"[0] == 'S';
  }

  lemma ResponseCounted(s: string, n: int)
    ensures var e := ResponseEffect(s, n);
            && (if InAnyCase(s, "NOERROR") then n else 0) == (if e.NoError? then e.n else 0)
            && (if InAnyCase(s, "NXDOMAIN") then n else 0) == (if e.NxDomain? then e.n else 0)
            && (if InAnyCase(s, "SERVFAIL") then n else 0) == (if e.ServFail? then e.n else 0)
            && !e.Requests? && !e.Durations? && !e.Bucket?
  {
    RcodesDiffer(s);
  }

  // What a line is counted as.
  lemma {:induction false} LineCounted(l: Line, parseLe: ParseLe, le: Bound)
    ensures var e := LineEffect(l, parseLe);
            && Counted(l, IsRequests) == (if e.Requests? then e.n else 0)
            && Counted(l, IsDurations) == (if e.Durations? then e.n else 0)
            && Counted(l, IsResponses("NOERROR")) == (if e.NoError? then e.n else 0)
            && Counted(l, IsResponses("NXDOMAIN")) == (if e.NxDomain? then e.n else 0)
            && Counted(l, IsResponses("SERVFAIL")) == (if e.ServFail? then e.n else 0)
            && Counted(l, IsBucket(le, parseLe)) == (if e.Bucket? && e.le == le then e.n else 0)
            && (l.Series? && IsBucket(le, parseLe)(l.name, l.labels) <==> e.Bucket? && e.le == le)
  {
    if l.Series? {
      EffectByName(l.name, l.labels, l.value, parseLe);
      NamesDiffer(l.name);
      ResponseCounted(LabelOf(l.labels, "rcode"), Trunc(l.value));
    }
  }

  // What one line adds to each counter.
  lemma {:induction false} LineAdds(c: Snapshot, l: Line, parseLe: ParseLe, le: Bound)
    ensures var d := Absorb(c, LineEffect(l, parseLe));
            && d.requests == c.requests + Counted(l, IsRequests)
            && d.durations == c.durations + Counted(l, IsDurations)
            && d.noError == c.noError + Counted(l, IsResponses("NOERROR"))
            && d.nxDomain == c.nxDomain + Counted(l, IsResponses("NXDOMAIN"))
            && d.servFail == c.servFail + Counted(l, IsResponses("SERVFAIL"))
            && BucketOf(d.buckets, le) == BucketOf(c.buckets, le) + Counted(l, IsBucket(le, parseLe))
            && (le in d.buckets <==>
                  le in c.buckets || (l.Series? && IsBucket(le, parseLe)(l.name, l.labels)))
  {
    LineCounted(l, parseLe, le);
    Absorbed(c, LineEffect(l, parseLe), le);
  }

  lemma Absorbed(c: Snapshot, e: Effect, le: Bound)
    ensures var d := Absorb(c, e);
            && d.requests == c.requests + (if e.Requests? then e.n else 0)
            && d.durations == c.durations + (if e.Durations? then e.n else 0)
            && d.noError == c.noError + (if e.NoError? then e.n else 0)
            && d.nxDomain == c.nxDomain + (if e.NxDomain? then e.n else 0)
            && d.servFail == c.servFail + (if e.ServFail? then e.n else 0)
            && BucketOf(d.buckets, le) == BucketOf(c.buckets, le) + (if e.Bucket? && e.le == le then e.n else 0)
            && (le in d.buckets <==> le in c.buckets || (e.Bucket? && e.le == le))
  {
  }

  lemma ReadSnoc(lines: seq<string>, init: seq<string>, last: string, parse: ParseValue)
    requires lines == init + [last]
    ensures ReadLines(lines, parse) == ReadLines(init, parse) + [ParseLine(last, parse)]
  {
  }

  lemma SumSnoc(lines: seq<Line>, init: seq<Line>, l: Line, counts: Selection)
    requires lines == init + [l]
    ensures Sum(lines, counts) == Sum(init, counts) + Counted(l, counts)
    ensures Occurs(lines, counts) <==> Occurs(init, counts) || (l.Series? && counts(l.name, l.labels))
  {
    assert lines[..|lines| - 1] == init && lines[|init|] == l;
    assert forall i | 0 <= i < |init| :: lines[i] == init[i];
  }

  function RequestsOf(s: Snapshot): int {
    s.requests
  }

  function DurationsOf(s: Snapshot): int {
    s.durations
  }

  function NoErrorOf(s: Snapshot): int {
    s.noError
  }

  function NxDomainOf(s: Snapshot): int {
    s.nxDomain
  }

  function ServFailOf(s: Snapshot): int {
    s.servFail
  }

  // A line adds to this number what this selection counts.
  ghost predicate AddsUp(number: Snapshot -> int, counts: Selection, parseLe: ParseLe, c: Snapshot, l: Line) {
    number(Absorb(c, LineEffect(l, parseLe))) == number(c) + Counted(l, counts)
  }

  lemma {:induction false} NumberIsSum(lines: seq<string>, parse: ParseValue, parseLe: ParseLe,
                                       number: Snapshot -> int, counts: Selection)
    requires number(EMPTY) == 0 && forall c, l :: AddsUp(number, counts, parseLe, c, l)
    ensures number(Folded(lines, ReaderOf(parse, parseLe))) == Sum(ReadLines(lines, parse), counts)
  {
    if lines != [] {
      var init, last := lines[..|lines| - 1], lines[|lines| - 1];
      NumberIsSum(init, parse, parseLe, number, counts);
      FoldedSnoc(lines, init, last, ReaderOf(parse, parseLe));
      assert AddsUp(number, counts, parseLe, Folded(init, ReaderOf(parse, parseLe)), ParseLine(last, parse));
      ReadSnoc(lines, init, last, parse);
      SumSnoc(ReadLines(lines, parse), ReadLines(init, parse), ParseLine(last, parse), counts);
    }
  }

  // Each counter of a text is the sum over the lines of the series with these
  // names: whole numbers, no line counted twice or under another counter.
  lemma {:induction false} CountersAreSums(lines: seq<string>, parse: ParseValue, parseLe: ParseLe)
    ensures var c, read := Folded(lines, ReaderOf(parse, parseLe)), ReadLines(lines, parse);
            && c.requests == Sum(read, IsRequests) && c.durations == Sum(read, IsDurations)
            && c.noError == Sum(read, IsResponses("NOERROR"))
            && c.nxDomain == Sum(read, IsResponses("NXDOMAIN"))
            && c.servFail == Sum(read, IsResponses("SERVFAIL"))
  {
    forall c, l
      ensures AddsUp(RequestsOf, IsRequests, parseLe, c, l)
      ensures AddsUp(DurationsOf, IsDurations, parseLe, c, l)
      ensures AddsUp(NoErrorOf, IsResponses("NOERROR"), parseLe, c, l)
      ensures AddsUp(NxDomainOf, IsResponses("NXDOMAIN"), parseLe, c, l)
      ensures AddsUp(ServFailOf, IsResponses("SERVFAIL"), parseLe, c, l)
    {
      LineAdds(c, l, parseLe, PlusInf);
    }
    NumberIsSum(lines, parse, parseLe, RequestsOf, IsRequests);
    NumberIsSum(lines, parse, parseLe, DurationsOf, IsDurations);
    NumberIsSum(lines, parse, parseLe, NoErrorOf, IsResponses("NOERROR"));
    NumberIsSum(lines, parse, parseLe, NxDomainOf, IsResponses("NXDOMAIN"));
    NumberIsSum(lines, parse, parseLe, ServFailOf, IsResponses("SERVFAIL"));
  }

  ghost predicate BucketIsSum(c: Snapshot, read: seq<Line>, counts: Selection, le: Bound) {
    (le in c.buckets <==> Occurs(read, counts)) && BucketOf(c.buckets, le) == Sum(read, counts)
  }

  // And so is each bucket, which is there if such a line is.
  lemma {:induction false} BucketsAreSums(lines: seq<string>, parse: ParseValue, parseLe: ParseLe, le: Bound)
    ensures BucketIsSum(Folded(lines, ReaderOf(parse, parseLe)), ReadLines(lines, parse), IsBucket(le, parseLe), le)
  {
    if lines != [] {
      var init, last := lines[..|lines| - 1], lines[|lines| - 1];
      BucketsAreSums(init, parse, parseLe, le);
      FoldedSnoc(lines, init, last, ReaderOf(parse, parseLe));
      ReadSnoc(lines, init, last, parse);
      BucketStep(Folded(init, ReaderOf(parse, parseLe)), ReadLines(init, parse), ParseLine(last, parse),
                 ReadLines(lines, parse), parseLe, le);
    }
  }

  lemma {:induction false} BucketStep(c: Snapshot, before: seq<Line>, l: Line, read: seq<Line>, parseLe: ParseLe,
                                      le: Bound)
    requires read == before + [l] && BucketIsSum(c, before, IsBucket(le, parseLe), le)
    ensures BucketIsSum(Absorb(c, LineEffect(l, parseLe)), read, IsBucket(le, parseLe), le)
  {
    LineAdds(c, l, parseLe, le);
    SumSnoc(read, before, l, IsBucket(le, parseLe));
  }

  // The series that an entry of an exposition stands for.
  function Denotes(e: Entry, parse: ParseValue): Line {
    if e.Sample? && parse(e.metric.value).Some?
    then Series(e.metric.name, ReadBack(e.metric.labels), parse(e.metric.value).value)
    else NoSample
  }

  // So a printed exposition is counted by what its entries say: comments and
  // margins count nothing, every sample counts once.
  lemma {:induction false} ExpositionCounted(es: seq<Entry>, parse: ParseValue, parseLe: ParseLe, le: Bound)
    requires es != [] && forall e | e in es :: ValidEntry(e)
    ensures var c := Folded(Split(Exposition(es), '\n'), ReaderOf(parse, parseLe));
            var read := seq(|es|, i requires 0 <= i < |es| => Denotes(es[i], parse));
            && c.requests == Sum(read, IsRequests) && c.durations == Sum(read, IsDurations)
            && c.noError == Sum(read, IsResponses("NOERROR"))
            && c.nxDomain == Sum(read, IsResponses("NXDOMAIN"))
            && c.servFail == Sum(read, IsResponses("SERVFAIL"))
            && BucketIsSum(c, read, IsBucket(le, parseLe), le)
  {
    ExpositionSplits(es);
    CountersAreSums(RenderAll(es), parse, parseLe);
    BucketsAreSums(RenderAll(es), parse, parseLe, le);
    forall i | 0 <= i < |es| ensures ParseLine(RenderEntry(es[i]), parse) == Denotes(es[i], parse) {
      EntryRead(es[i], parse);
    }
    assert ReadLines(RenderAll(es), parse) == seq(|es|, i requires 0 <= i < |es| => Denotes(es[i], parse));
  }

  // -------------------------------------------------------------- cumulative

  predicate Below(a: Bound, b: Bound) {
    a.Finite? && (b.Finite? ==> a.r < b.r)
  }

  // Higher buckets hold at least what lower ones do.
  ghost predicate Cumulative(buckets: map<Bound, int>) {
    forall a, b | a in buckets && b in buckets && Below(a, b) :: buckets[a] <= buckets[b]
  }

  // Series over the same bounds add up to a cumulative one.
  lemma MergeStaysCumulative(a: Snapshot, b: Snapshot)
    requires a.buckets.Keys == b.buckets.Keys && Cumulative(a.buckets) && Cumulative(b.buckets)
    ensures Cumulative(Merge(a, b).buckets)
  {
    assert Merge(a, b).buckets.Keys == a.buckets.Keys;
  }

  // No bound of one series has above it a bound that this series lacks and the
  // other has.
  ghost predicate Compatible(a: set<Bound>, b: set<Bound>) {
    forall x, y | Below(x, y) :: !(x in a && y in b && y !in a) && !(x in b && y in a && y !in b)
  }

  // A histogram over these bounds as an exposition can hold it.
  ghost predicate Histogram(s: Snapshot, bounds: set<Bound>) {
    s.buckets.Keys == bounds && Cumulative(s.buckets) && forall le | le in s.buckets :: s.buckets[le] >= 0
  }

  lemma {:induction false} CompatibleMerge(a: Snapshot, b: Snapshot)
    requires Histogram(a, a.buckets.Keys) && Histogram(b, b.buckets.Keys)
    requires Compatible(a.buckets.Keys, b.buckets.Keys)
    ensures Cumulative(Merge(a, b).buckets)
  {
    var sum := Merge(a, b).buckets;
    forall x, y | x in sum && y in sum && Below(x, y) ensures sum[x] <= sum[y] {
      assert BucketOf(a.buckets, x) <= BucketOf(a.buckets, y);
      assert BucketOf(b.buckets, x) <= BucketOf(b.buckets, y);
    }
  }

  // x counts in one series, y above it only in the other.
  lemma {:induction false} IncompatibleMerge(p: set<Bound>, q: set<Bound>, x: Bound, y: Bound)
    returns (a: Snapshot, b: Snapshot)
    requires Below(x, y) && x in p && y in q && y !in p
    ensures Histogram(a, p) && Histogram(b, q)
    ensures !Cumulative(Merge(a, b).buckets) && !Cumulative(Merge(b, a).buckets)
  {
    a, b := EMPTY.(buckets := map le | le in p :: 1), EMPTY.(buckets := map le | le in q :: 0);
    MergeCommutes(a, b);
    var sum := Merge(a, b).buckets;
    assert x in sum && y in sum && sum[x] == 1 && sum[y] == 0;
  }

  // Any two histograms over these bounds add up to a cumulative one, exactly
  // when the two sets of bounds are compatible.
  lemma {:induction false} MergeCumulativeExactlyWhen(p: set<Bound>, q: set<Bound>)
    ensures (forall a, b | Histogram(a, p) && Histogram(b, q) :: Cumulative(Merge(a, b).buckets)) <==> Compatible(p, q)
  {
    if Compatible(p, q) {
      forall a, b | Histogram(a, p) && Histogram(b, q) ensures Cumulative(Merge(a, b).buckets) {
        CompatibleMerge(a, b);
      }
    } else {
      var x, y :| Below(x, y) && !(!(x in p && y in q && y !in p) && !(x in q && y in p && y !in q));
      if x in p && y in q && y !in p {
        var a, b := IncompatibleMerge(p, q, x, y);
        assert !Cumulative(Merge(a, b).buckets);
      } else {
        var b, a := IncompatibleMerge(q, p, x, y);
        assert !Cumulative(Merge(a, b).buckets);
      }
    }
  }
}
