// The agent's poll loop: fetch, apply when the etag moved, remember the etag
// only after a full apply.
module BundleAgent {
  import opened Wrappers
  import opened Bundle

  // What polling central gives: an error, 404, 304, or a bundle.
  datatype Fetch = FetchError | Missing | NotModified | Fetched(b: Bundle)

  datatype Poll = Poll(fetch: Fetch, x: Faults)

  ghost predicate ValidPoll(p: Poll) {
    p.fetch.Fetched? ==> CleanBundle(p.fetch.b)
  }

  // ------------------------------------------------------------- whole runs

  // The poll brings a bundle other than the remembered one.
  predicate Tries(p: Poll, etag: string) {
    p.fetch.Fetched? && p.fetch.b.etag != etag
  }

  predicate Applies(p: Poll, etag: string) {
    Tries(p, etag) && Verdict(p.fetch.b, p.x) == Applied
  }

  // A failure that an apply ignores can keep a file that has to go.
  predicate IgnoresFailures(x: Faults) {
    x.remove != {} || x.readDir != {}
  }

  // The poll may leave a disk that is no bundle's: an apply that stops after
  // the config is in place, or one that ignores a failure.
  predicate GoesWrong(p: Poll, etag: string) {
    && Tries(p, etag)
    && match Verdict(p.fetch.b, p.x)
       case Applied => IgnoresFailures(p.x)
       case ConfigFailed => false
       case _ => true
  }

  // The etag of the last bundle that was applied in full.
  function EtagAfter(etag: string, script: seq<Poll>): string {
    if script == [] then etag
    else
      var before, p := EtagAfter(etag, script[..|script| - 1]), script[|script| - 1];
      if Applies(p, before) then p.fetch.b.etag else before
  }

  function BundleAfter(current: Option<Bundle>, etag: string, script: seq<Poll>): Option<Bundle> {
    if script == [] then current
    else
      var init, p := script[..|script| - 1], script[|script| - 1];
      if Applies(p, EtagAfter(etag, init)) then Some(p.fetch.b) else BundleAfter(current, etag, init)
  }

  // May the disk have left that bundle since?
  predicate AstrayAfter(astray: bool, etag: string, script: seq<Poll>) {
    if script == [] then astray
    else
      var init, p := script[..|script| - 1], script[|script| - 1];
      var before := EtagAfter(etag, init);
      GoesWrong(p, before) || (!Applies(p, before) && AstrayAfter(astray, etag, init))
  }

  ghost predicate WrongAt(etag: string, script: seq<Poll>, k: int) {
    0 <= k < |script| && GoesWrong(script[k], EtagAfter(etag, script[..k]))
  }

  // Poll k applies its bundle in full and ignores no failure.
  ghost predicate CleanAt(etag: string, script: seq<Poll>, k: int) {
    && 0 <= k < |script| && Applies(script[k], EtagAfter(etag, script[..k])) && !WrongAt(etag, script, k)
  }

  ghost predicate NoCleanFrom(etag: string, script: seq<Poll>, from: int) {
    forall k | from <= k < |script| :: !CleanAt(etag, script, k)
  }

  lemma EarlierAt(etag: string, script: seq<Poll>, k: nat)
    requires k < |script| - 1
    ensures WrongAt(etag, script, k) <==> WrongAt(etag, script[..|script| - 1], k)
    ensures CleanAt(etag, script, k) <==> CleanAt(etag, script[..|script| - 1], k)
  {
    assert script[..|script| - 1][..k] == script[..k];
  }

  lemma {:induction false} NoCleanSnoc(etag: string, script: seq<Poll>, from: nat)
    requires from < |script|
    ensures var n := |script| - 1;
            NoCleanFrom(etag, script, from) <==> NoCleanFrom(etag, script[..n], from) && !CleanAt(etag, script, n)
  {
    var n := |script| - 1;
    forall k | from <= k < n ensures CleanAt(etag, script, k) <==> CleanAt(etag, script[..n], k) {
      EarlierAt(etag, script, k);
    }
  }

  // Something went wrong and no clean apply came after it.
  ghost predicate NeverRepaired(etag: string, script: seq<Poll>) {
    exists k :: WrongAt(etag, script, k) && NoCleanFrom(etag, script, k + 1)
  }

  lemma {:induction false} NeverRepairedSnoc(etag: string, script: seq<Poll>)
    requires script != []
    ensures var n := |script| - 1;
            NeverRepaired(etag, script) <==>
              WrongAt(etag, script, n) || (!CleanAt(etag, script, n) && NeverRepaired(etag, script[..n]))
  {
    var n := |script| - 1;
    if k :| WrongAt(etag, script, k) && NoCleanFrom(etag, script, k + 1) && k < n {
      EarlierAt(etag, script, k);
      NoCleanSnoc(etag, script, k + 1);
      assert WrongAt(etag, script[..n], k) && NoCleanFrom(etag, script[..n], k + 1);
    }
    if WrongAt(etag, script, n) {
      assert NoCleanFrom(etag, script, n + 1);
    } else if k :| WrongAt(etag, script[..n], k) && NoCleanFrom(etag, script[..n], k + 1) && !CleanAt(etag, script, n) {
      EarlierAt(etag, script, k);
      NoCleanSnoc(etag, script, k + 1);
    }
  }

  // What it takes to be astray: something went wrong, or had before, and no
  // clean apply came after it.
  lemma {:induction false} AstrayMeaning(astray: bool, etag: string, script: seq<Poll>)
    ensures AstrayAfter(astray, etag, script) <==>
              (astray && NoCleanFrom(etag, script, 0)) || NeverRepaired(etag, script)
  {
    if script != [] {
      AstrayMeaning(astray, etag, script[..|script| - 1]);
      NeverRepairedSnoc(etag, script);
      NoCleanSnoc(etag, script, 0);
    }
  }

  // Every bundle that central serves in these polls is the remembered one.
  ghost predicate NothingNew(etag: string, script: seq<Poll>) {
    forall p | p in script :: !Tries(p, etag)
  }

  lemma {:induction false} NothingNewKeeps(current: Option<Bundle>, etag: string, script: seq<Poll>)
    requires NothingNew(etag, script)
    ensures EtagAfter(etag, script) == etag && BundleAfter(current, etag, script) == current
  {
    if script != [] {
      NothingNewKeeps(current, etag, script[..|script| - 1]);
    }
  }

  // ------------------------------------------------------------ failed applies

  predicate SameConfig(a: Bundle, b: Bundle) {
    a.corefile == b.corefile && ConfigFilename(a.engine) == ConfigFilename(b.engine)
  }

  // An apply that could not write the config has changed nothing that counts.
  lemma UntouchedShowsTheSame(f0: Files, f: Files, a: Bundle, b: Bundle)
    requires Untouched(f0, f, b)
    ensures Materialized(f, a) <==> Materialized(f0, a)
  {
    var temp := Temp(Path(Root, ConfigFilename(b.engine)));
    assert |temp.name| > 11 || temp.name == "Corefile.tmp";
    assert forall p: Path | p.dir != Root || p.name in {COREFILE, HICKORY_CONFIG} :: Look(f, p) == Look(f0, p);
    if Materialized(f0, a) {
      SamePlaces(f0, f, a);
    }
    if Materialized(f, a) {
      SamePlaces(f, f0, a);
    }
  }

  lemma SamePlaces(f0: Files, f: Files, a: Bundle)
    requires forall p: Path | p.dir != Root || p.name in {COREFILE, HICKORY_CONFIG} :: Look(f, p) == Look(f0, p)
    requires Materialized(f0, a)
    ensures Materialized(f, a)
  {
    assert Look(f, Path(Root, ConfigFilename(a.engine))) == Look(f0, Path(Root, ConfigFilename(a.engine)));
    assert Look(f, Path(Root, OtherConfig(a.engine))) == Look(f0, Path(Root, OtherConfig(a.engine)));
    forall n | n in a.zones ensures Look(f, Path(Zones, n)) == Some(a.zones[n]) {
      assert Look(f, Path(Zones, n)) == Look(f0, Path(Zones, n));
    }
    forall n | n in a.keyFiles ensures Look(f, Path(Keys, n)) == Some(a.keyFiles[n]) {
      assert Look(f, Path(Keys, n)) == Look(f0, Path(Keys, n));
    }
    forall p: Path | p in f && p.dir != Root ensures p in f0 {
      assert Look(f, p) == Look(f0, p);
    }
  }

  // Synchronising the zones of a disk that shows a with those of b leaves a's.
  ghost predicate ZonesStillShow(a: Bundle, b: Bundle) {
    && (forall n | n in b.zones :: if n in a.zones then a.zones[n] == b.zones[n] else Ext(n) != ".zone")
    && (forall n | n in a.zones && n !in b.zones :: Ext(n) != ".zone" && !IsTemp(b.zones.Keys, n))
  }

  ghost predicate RootShows(f: Files, a: Bundle) {
    && Look(f, Path(Root, ConfigFilename(a.engine))) == Some(a.corefile)
    && Look(f, Path(Root, OtherConfig(a.engine))) == None
  }

  ghost predicate ZonesShow(f: Files, a: Bundle) {
    && (forall n | n in a.zones :: Look(f, Path(Zones, n)) == Some(a.zones[n]))
    && (forall p: Path | p in f && p.dir == Zones && Ext(p.name) == ".zone" :: p.name in a.zones)
  }

  ghost predicate KeysShow(f: Files, a: Bundle) {
    && (forall n | n in a.keyFiles :: Look(f, Path(Keys, n)) == Some(a.keyFiles[n]))
    && (forall p: Path | p in f && p.dir == Keys :: p.name in a.keyFiles)
  }

  lemma MaterializedParts(f: Files, a: Bundle)
    ensures Materialized(f, a) <==> RootShows(f, a) && ZonesShow(f, a) && KeysShow(f, a)
  {
  }

  lemma ZonesShowSame(f0: Files, f: Files, a: Bundle)
    requires SameIn(f0, f, Zones) && ZonesShow(f0, a)
    ensures ZonesShow(f, a)
  {
    forall n | n in a.zones ensures Look(f, Path(Zones, n)) == Some(a.zones[n]) {
      assert Look(f0, Path(Zones, n)) == Look(f, Path(Zones, n));
    }
    forall p: Path | p in f && p.dir == Zones ensures p in f0 {
      assert Look(f0, p) == Look(f, p);
    }
  }

  lemma KeysShowSame(f0: Files, f: Files, a: Bundle)
    requires SameIn(f0, f, Keys) && KeysShow(f0, a)
    ensures KeysShow(f, a)
  {
    forall n | n in a.keyFiles ensures Look(f, Path(Keys, n)) == Some(a.keyFiles[n]) {
      assert Look(f0, Path(Keys, n)) == Look(f, Path(Keys, n));
    }
    forall p: Path | p in f && p.dir == Keys ensures p in f0 {
      assert Look(f0, p) == Look(f, p);
    }
  }

  // Once b's config is in place the root shows a exactly if the configs agree.
  lemma RootAfterConfig(x: Faults, f0: Files, f: Files, a: Bundle, b: Bundle)
    requires RootShows(f0, a)
    requires forall p: Path | p.dir == Root :: Look(f, p) == Expected(x, Look(f0, p), b, p)
    ensures RootShows(f, a) <==> SameConfig(a, b)
  {
    var config, other := Path(Root, ConfigFilename(b.engine)), Path(Root, OtherConfig(b.engine));
    assert config != other;
    assert Look(f, config) == Some(b.corefile);
    assert Look(f, other) == Expected(x, Look(f0, other), b, other);
  }

  // Once b's zones are in place they show a exactly if its zones survive that.
  lemma {:induction false} ZonesAfterSync(x: Faults, f0: Files, f: Files, a: Bundle, b: Bundle)
    requires ZonesShow(f0, a) && !IgnoresFailures(x) && CleanBundle(b)
    requires forall p: Path | p.dir == Zones :: Look(f, p) == Expected(x, Look(f0, p), b, p)
    ensures ZonesShow(f, a) <==> ZonesStillShow(a, b)
  {
    forall n: string
      ensures Look(f, Path(Zones, n)) == Synced(Look(f0, Path(Zones, n)), b.zones, ".zone", n)
    {
      assert Look(f, Path(Zones, n)) == Expected(x, Look(f0, Path(Zones, n)), b, Path(Zones, n));
    }
    if ZonesStillShow(a, b) {
      forall p: Path | p in f && p.dir == Zones && Ext(p.name) == ".zone" ensures p.name in a.zones {
        assert p == Path(Zones, p.name);
        assert Look(f, p) == Synced(Look(f0, p), b.zones, ".zone", p.name);
      }
      forall n | n in a.zones ensures Look(f, Path(Zones, n)) == Some(a.zones[n]) {
        assert Look(f0, Path(Zones, n)) == Some(a.zones[n]);
      }
    } else if ZonesShow(f, a) {
      ZonesSurvived(f0, f, a, b);
    }
  }

  lemma {:induction false} ZonesSurvived(f0: Files, f: Files, a: Bundle, b: Bundle)
    requires ZonesShow(f, a)
    requires forall n: string :: Look(f, Path(Zones, n)) == Synced(Look(f0, Path(Zones, n)), b.zones, ".zone", n)
    ensures ZonesStillShow(a, b)
  {
    forall n | n in b.zones ensures if n in a.zones then a.zones[n] == b.zones[n] else Ext(n) != ".zone" {
      assert Look(f, Path(Zones, n)) == Some(b.zones[n]);
      assert Path(Zones, n) in f;
    }
    forall n | n in a.zones && n !in b.zones ensures Ext(n) != ".zone" && !IsTemp(b.zones.Keys, n) {
      assert Look(f, Path(Zones, n)) == Some(a.zones[n]);
    }
  }

  // ------------------------------------------------------------------ agent

  class Agent {
    const disk: Disk
    var lastEtag: string
    // The bundle of the last full apply, and whether the disk may have left it
    // since.
    ghost var current: Option<Bundle>
    ghost var astray: bool

    // Unless an apply has gone wrong since the last full one, the disk is the
    // bundle whose etag is remembered.
    ghost predicate Valid()
      reads this, disk
    {
      && disk.Valid()
      && (current == None ==> lastEtag == "")
      && (current.Some? ==> current.value.etag == lastEtag)
      && (current.Some? && !astray ==> Materialized(disk.files, current.value))
    }

    constructor (disk: Disk)
      requires disk.Valid()
      ensures Valid() && this.disk == disk && lastEtag == "" && !astray && current == None
    {
      this.disk, lastEtag, current, astray := disk, "", None, false;
    }

    method ServerCycle(p: Poll) returns (ok: bool)
      requires Valid() && ValidPoll(p)
      modifies this, disk
      ensures Valid()
      ensures old(disk.history) <= disk.history
      // nothing fetched, or nothing new: nothing happens
      ensures !Tries(p, old(lastEtag)) ==>
                && ok == !p.fetch.FetchError? && disk.files == old(disk.files) && disk.history == old(disk.history)
                && lastEtag == old(lastEtag) && current == old(current) && astray == old(astray)
      // the etag moves exactly with a full apply
      ensures Tries(p, old(lastEtag)) ==>
                && (ok <==> Verdict(p.fetch.b, p.x) == Applied)
                && lastEtag == (if ok then p.fetch.b.etag else old(lastEtag))
                && current == (if ok then Some(p.fetch.b) else old(current))
                && ApplyMoment(old(disk.files), disk.files, p.fetch.b)
                && (forall i | |old(disk.history)| <= i < |disk.history| ::
                      ApplyMoment(old(disk.files), disk.history[i], p.fetch.b))
                && astray == (GoesWrong(p, old(lastEtag)) || (!ok && old(astray)))
                && match Verdict(p.fetch.b, p.x)
                   case Applied => AllExpected(p.x, old(disk.files), disk.files, p.fetch.b)
                   case ConfigFailed => Untouched(old(disk.files), disk.files, p.fetch.b)
                   case ZonesFailed =>
                     && RootOnly(p.x, old(disk.files), disk.files, p.fetch.b)
                     && (Zones in p.x.mkdir ==> SameIn(old(disk.files), disk.files, Zones))
                   case KeysFailed =>
                     && AllButKeys(p.x, old(disk.files), disk.files, p.fetch.b)
                     && (Keys in p.x.mkdir ==> SameIn(old(disk.files), disk.files, Keys))
    {
      if p.fetch.FetchError? {
        return false;
      }
      if p.fetch.Missing? {
        return true;
      }
      if p.fetch.NotModified? {
        return true;
      }
      var b := p.fetch.b;
      if b.etag == lastEtag {
        return true;
      }
      ghost var f0 := disk.files;
      var r := disk.ApplyBundle(b, p.x);
      astray := GoesWrong(p, lastEtag) || (r != Applied && astray);
      if r != Applied {
        if r == ConfigFailed && current.Some? {
          UntouchedShowsTheSame(f0, disk.files, current.value, b);
        }
        return false;
      }
      ApplyConverges(p.x, f0, disk.files, b);
      current := Some(b);
      lastEtag := b.etag;
      return true;
    }

    // The loop for as many polls as the script has: the etag and the bundle
    // are those of the last full apply, and the disk is that bundle unless
    // something has gone wrong since.
    method ServerLoop(script: seq<Poll>)
      requires Valid() && forall p | p in script :: ValidPoll(p)
      modifies this, disk
      ensures Valid()
      ensures old(disk.history) <= disk.history
      ensures lastEtag == EtagAfter(old(lastEtag), script)
      ensures current == BundleAfter(old(current), old(lastEtag), script)
      ensures astray == AstrayAfter(old(astray), old(lastEtag), script)
      ensures current.Some? && !AstrayAfter(old(astray), old(lastEtag), script) ==>
                Materialized(disk.files, current.value)
      ensures NothingNew(old(lastEtag), script) ==> disk.files == old(disk.files)
    {
      for i := 0 to |script|
        invariant Valid() && old(disk.history) <= disk.history
        invariant lastEtag == EtagAfter(old(lastEtag), script[..i])
        invariant current == BundleAfter(old(current), old(lastEtag), script[..i])
        invariant astray == AstrayAfter(old(astray), old(lastEtag), script[..i])
        invariant NothingNew(old(lastEtag), script) ==> disk.files == old(disk.files)
      {
        assert script[..i + 1][..i] == script[..i];
        if NothingNew(old(lastEtag), script) {
          NothingNewKeeps(current, old(lastEtag), script[..i]);
        }
        var ok := ServerCycle(script[i]);
      }
      assert script[..|script|] == script;
    }

    // One poll without errors leaves the served bundle on disk, whatever was
    // there before: exactly if its etag is not the remembered one, or the disk
    // is that bundle already.
    method CleanPoll(b: Bundle)
      requires Valid() && CleanBundle(b)
      modifies this, disk
      ensures Valid() && lastEtag == b.etag
      ensures Materialized(disk.files, b) <==> b.etag != old(lastEtag) || Materialized(old(disk.files), b)
      ensures b.etag != old(lastEtag) ==> !astray && current == Some(b)
    {
      var ok := ServerCycle(Poll(Fetched(b), NO_FAULTS));
    }

    // An apply of b fails and central goes back to bundle a, in whatever mixture
    // of errors, 304s and repeats of a. The disk ends up as a if it was the
    // config that failed, and not as a if the configs differ and it was not, or
    // if the zones were replaced by others.
    method FailedThenReverted(a: Bundle, b: Bundle, x: Faults, script: seq<Poll>)
      requires Valid() && CleanBundle(b) && current == Some(a) && !astray && a.etag != b.etag
      requires Verdict(b, x) != Applied
      requires (forall p | p in script :: ValidPoll(p)) && NothingNew(a.etag, script)
      modifies this, disk
      ensures Valid() && lastEtag == a.etag && current == Some(a)
      ensures Verdict(b, x) == ConfigFailed ==> Materialized(disk.files, a)
      ensures Verdict(b, x) != ConfigFailed && !SameConfig(a, b) ==> !Materialized(disk.files, a)
      ensures Verdict(b, x) == KeysFailed && !IgnoresFailures(x) && !ZonesStillShow(a, b) ==>
                !Materialized(disk.files, a)
      // where it is a directory that cannot be made, this is all there is to it
      ensures Verdict(b, x) == ZonesFailed && Zones in x.mkdir ==> (Materialized(disk.files, a) <==> SameConfig(a, b))
      ensures Verdict(b, x) == KeysFailed && Keys in x.mkdir && !IgnoresFailures(x) ==>
                (Materialized(disk.files, a) <==> SameConfig(a, b) && ZonesStillShow(a, b))
    {
      ghost var f0 := disk.files;
      var ok := ServerCycle(Poll(Fetched(b), x));
      ghost var f1 := disk.files;
      MaterializedParts(f0, a);
      MaterializedParts(f1, a);
      match Verdict(b, x) {
        case ConfigFailed =>
          UntouchedShowsTheSame(f0, f1, a, b);
        case ZonesFailed =>
          RootAfterConfig(x, f0, f1, a, b);
          assert SameIn(f0, f1, Keys);
          KeysShowSame(f0, f1, a);
          if Zones in x.mkdir {
            ZonesShowSame(f0, f1, a);
          }
        case KeysFailed =>
          RootAfterConfig(x, f0, f1, a, b);
          if !IgnoresFailures(x) {
            ZonesAfterSync(x, f0, f1, a, b);
          }
          if Keys in x.mkdir {
            KeysShowSame(f0, f1, a);
          }
        case Applied =>
      }
      NothingNewKeeps(current, lastEtag, script);
      ServerLoop(script);
    }
  }
}
