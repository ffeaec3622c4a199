// Materializing a DNS bundle on disk: temp-then-rename writes, directory
// synchronisation, and what every moment in between looks like.
module Bundle {
  import opened Wrappers

  // The output directory and its two sub-directories.
  datatype Dir = Root | Zones | Keys
  datatype Path = Path(dir: Dir, name: string)

  // The regular files on disk; sub-directories are skipped by every operation.
  type Files = map<Path, string>

  datatype Bundle = Bundle(
    etag: string, engine: string, corefile: string, zones: map<string, string>, keyFiles: map<string, string>)

  function Look(f: Files, p: Path): Option<string> {
    if p in f then Some(f[p]) else None
  }

  function Temp(p: Path): Path {
    Path(p.dir, p.name + ".tmp")
  }

  // filepath.Ext: the suffix from the last dot.
  function Ext(name: string): string {
    if name == "" then ""
    else if name[|name| - 1] == '.' then "."
    else
      var e := Ext(name[..|name| - 1]);
      if e == "" then "" else e + [name[|name| - 1]]
  }

  const COREFILE := "Corefile"
  const HICKORY_CONFIG := "config.toml"

  function ConfigFilename(engine: string): string {
    if engine == "hickory" then HICKORY_CONFIG else COREFILE
  }

  function OtherConfig(engine: string): string {
    if ConfigFilename(engine) == COREFILE then HICKORY_CONFIG else COREFILE
  }

  // Which operations fail, by what they operate on. A write fails before it
  // touches the file or after having left `cut` characters in it.
  datatype Faults = Faults(
    mkdir: set<Dir>, open: set<Path>, write: set<Path>, rename: set<Path>, remove: set<Path>, readDir: set<Dir>,
    cut: nat)

  const NO_FAULTS := Faults({}, {}, {}, {}, {}, {}, 0)

  predicate WriteFails(p: Path, x: Faults) {
    p.dir in x.mkdir || Temp(p) in x.open || Temp(p) in x.write || p in x.rename
  }

  // ------------------------------------------------------------- synchronise

  // Is `name` the temporary file of one of these?
  predicate IsTemp(names: set<string>, name: string) {
    |name| >= 4 && name[|name| - 4..] == ".tmp" && name[..|name| - 4] in names
  }

  // No entry is named like the temporary file of another.
  predicate CleanNames(entries: map<string, string>) {
    forall n | n in entries :: !IsTemp(entries.Keys, n)
  }

  predicate Removable(name: string, entries: map<string, string>, suffix: string) {
    name !in entries && (suffix == "" || Ext(name) == suffix)
  }

  // What synchronising `dir` is to leave at a path of that directory.
  function Synced(was: Option<string>, entries: map<string, string>, suffix: string, name: string): Option<string> {
    if name in entries then Some(entries[name])
    else if IsTemp(entries.Keys, name) || Removable(name, entries, suffix) then None
    else was
  }

  // A stale file survives when its removal, or the directory listing, fails.
  predicate Survives(p: Path, x: Faults) {
    p in x.remove || p.dir in x.readDir
  }

  function SyncedUnder(x: Faults, was: Option<string>, entries: map<string, string>, suffix: string, p: Path)
    : Option<string>
  {
    if p.name in entries then Some(entries[p.name])
    else if IsTemp(entries.Keys, p.name) then None
    else if Removable(p.name, entries, suffix) && !Survives(p, x) then None
    else was
  }

  lemma TempIsTemp(names: set<string>, n: string)
    ensures IsTemp(names, n + ".tmp") <==> n in names
  {
    var t := n + ".tmp";
    assert t[|t| - 4..] == ".tmp" && t[..|t| - 4] == n;
  }

  lemma TempSplits(name: string)
    requires |name| >= 4 && name[|name| - 4..] == ".tmp"
    ensures name == name[..|name| - 4] + ".tmp"
  {
  }

  // A path is as it was, or as it is to be: the whole old file, the whole new
  // file, or no file.
  ghost predicate OldOrNew(was: Option<string>, is_: Option<string>, willBe: Option<string>) {
    is_ == was || is_ == willBe
  }

  // A moment of synchronising `dir` that started from `f0`.
  ghost predicate SyncMoment(f0: Files, f: Files, dir: Dir, entries: map<string, string>, suffix: string) {
    && (forall p: Path | p.dir != dir :: Look(f, p) == Look(f0, p))
    && (forall p: Path | p.dir == dir && !IsTemp(entries.Keys, p.name) ::
          OldOrNew(Look(f0, p), Look(f, p), Synced(Look(f0, p), entries, suffix, p.name)))
  }

  // ------------------------------------------------------------------- disk

  // What a write that stops half-way leaves of a body.
  function Cut(body: string, n: nat): string {
    if n < |body| then body[..n] else body
  }

  // The states that one write goes through: the file partly written, then
  // whole.
  function WriteTrace(f: Files, p: Path, body: string, x: Faults): seq<Files> {
    if p in x.open then []
    else [f[p := Cut(body, x.cut)]] + (if p in x.write then [] else [f[p := body]])
  }

  // The states that one atomic write goes through.
  function AtomicTrace(f: Files, p: Path, body: string, x: Faults): seq<Files> {
    if p.dir in x.mkdir then []
    else
      WriteTrace(f, Temp(p), body, x) + (if WriteFails(p, x) then [] else [(f - {Temp(p)})[p := body]])
  }

  // `history` is every state the disk has been in, the present one last.
  class Disk {
    var files: Files
    ghost var history: seq<Files>

    ghost predicate Valid()
      reads this
    {
      history != [] && history[|history| - 1] == files
    }

    constructor (files: Files)
      ensures Valid() && this.files == files && history == [files]
    {
      this.files, history := files, [files];
    }

    method WriteFile(p: Path, body: string, x: Faults) returns (ok: bool)
      requires Valid()
      modifies this
      ensures Valid()
      ensures ok <==> p !in x.open && p !in x.write
      ensures ok ==> files == old(files)[p := body]
      ensures files.Keys - {p} == old(files).Keys - {p}
      ensures forall q: Path | q != p :: Look(files, q) == Look(old(files), q)
      ensures history == old(history) + WriteTrace(old(files), p, body, x)
    {
      if p in x.open {
        return false;
      }
      files := files[p := Cut(body, x.cut)];
      history := history + [files];
      if p in x.write {
        return false;
      }
      files := files[p := body];
      assert files == old(files)[p := body];
      history := history + [files];
      return true;
    }

    method Rename(from: Path, to: Path, x: Faults) returns (ok: bool)
      requires Valid() && from in files && from != to
      modifies this
      ensures Valid()
      ensures ok <==> to !in x.rename
      ensures files == if ok then (old(files) - {from})[to := old(files)[from]] else old(files)
      ensures history == old(history) + (if ok then [files] else [])
    {
      if to in x.rename {
        return false;
      }
      files := (files - {from})[to := files[from]];
      history := history + [files];
      return true;
    }

    // The caller ignores whether it worked.
    method Remove(p: Path, x: Faults)
      requires Valid()
      modifies this
      ensures Valid()
      ensures files == if p in x.remove then old(files) else old(files) - {p}
      ensures history == old(history) + (if p in x.remove then [] else [files])
    {
      if p !in x.remove {
        files := files - {p};
        history := history + [files];
      }
    }

    // At every moment the target is the whole old or the whole new file.
    method AtomicWrite(p: Path, body: string, x: Faults) returns (ok: bool)
      requires Valid()
      modifies this
      ensures Valid()
      ensures ok <==> !WriteFails(p, x)
      ensures ok ==> files == (old(files) - {Temp(p)})[p := body]
      ensures !ok ==> forall q: Path | q != Temp(p) :: Look(files, q) == Look(old(files), q)
      ensures history == old(history) + AtomicTrace(old(files), p, body, x)
      ensures forall i, q | |old(history)| <= i < |history| && q != Temp(p) ::
                Look(history[i], q) == Look(old(files), q) || (q == p && Look(history[i], q) == Some(body))
    {
      if p.dir in x.mkdir {
        return false;
      }
      assert Temp(p) != p by {
        assert |Temp(p).name| == |p.name| + 4;
      }
      ok := WriteFile(Temp(p), body, x);
      if !ok {
        return;
      }
      ghost var f1 := files;
      ok := Rename(Temp(p), p, x);
      assert f1 == old(files)[Temp(p) := body];
      assert ok ==> files == (old(files) - {Temp(p)})[p := body];
    }

    // Removes every listed file that is not wanted, in any order.
    method RemoveStale(dir: Dir, entries: map<string, string>, suffix: string, x: Faults)
      requires Valid()
      modifies this
      ensures Valid()
      ensures forall p: Path | p.dir != dir || !Removable(p.name, entries, suffix) || p in x.remove ::
                Look(files, p) == Look(old(files), p)
      ensures forall p: Path | p.dir == dir && Removable(p.name, entries, suffix) && p !in x.remove :: p !in files
      ensures old(history) <= history
      ensures forall i | |old(history)| <= i < |history| :: RemovalMoment(old(files), history[i], dir, entries, suffix)
    {
      var todo := set p | p in files && p.dir == dir;
      while todo != {}
        invariant Valid() && forall p: Path | p in todo :: p.dir == dir
        invariant forall p: Path | p in todo || p.dir != dir || !Removable(p.name, entries, suffix) || p in x.remove ::
                    Look(files, p) == Look(old(files), p)
        invariant forall p: Path | p.dir == dir && p !in todo && Removable(p.name, entries, suffix) && p !in x.remove ::
                    p !in files
        invariant old(history) <= history
        invariant forall i | |old(history)| <= i < |history| ::
                    RemovalMoment(old(files), history[i], dir, entries, suffix)
        decreases todo
      {
        var p :| p in todo;
        todo := todo - {p};
        if p.name in entries {
          continue;
        }
        if suffix != "" && Ext(p.name) != suffix {
          continue;
        }
        Remove(p, x);
      }
    }

    // One entry of a directory of which `done` have been written.
    method WriteEntry(dir: Dir, entries: map<string, string>, n: string, x: Faults, ghost f0: Files,
                      ghost done: set<string>)
      returns (ok: bool)
      requires Valid() && done <= entries.Keys && n in entries
      requires CleanNames(entries) ==> WrittenAll(f0, files, dir, entries, done)
      modifies this
      ensures Valid()
      ensures ok <==> !WriteFails(Path(dir, n), x)
      ensures ok ==> files == (old(files) - {Temp(Path(dir, n))})[Path(dir, n) := entries[n]]
      ensures forall p: Path | p.dir != dir :: Look(files, p) == Look(old(files), p)
      ensures ok && CleanNames(entries) ==> WrittenAll(f0, files, dir, entries, done + {n})
      ensures CleanNames(entries) ==> WriteMoment(f0, files, dir, entries)
      ensures old(history) <= history
      ensures CleanNames(entries) ==>
                forall i | |old(history)| <= i < |history| :: WriteMoment(f0, history[i], dir, entries)
    {
      ok := AtomicWrite(Path(dir, n), entries[n], x);
      if CleanNames(entries) {
        forall i | |old(history)| <= i < |history| ensures WriteMoment(f0, history[i], dir, entries) {
          MomentOfOneWrite(f0, old(files), history[i], dir, entries, done, n);
        }
        MomentOfOneWrite(f0, old(files), files, dir, entries, done, n);
        if ok {
          OneMoreWritten(f0, old(files), files, dir, entries, done, n);
        }
      }
    }

    // Writes every entry, in any order, until one fails.
    method WriteEntries(dir: Dir, entries: map<string, string>, x: Faults) returns (ok: bool)
      requires Valid()
      modifies this
      ensures Valid()
      ensures ok <==> forall n | n in entries :: !WriteFails(Path(dir, n), x)
      ensures ok ==> exists order :: Orders(order, entries) && files == WrittenInOrder(old(files), dir, entries, order)
      ensures forall p: Path | p.dir != dir :: Look(files, p) == Look(old(files), p)
      ensures ok && CleanNames(entries) ==> WrittenAll(old(files), files, dir, entries, entries.Keys)
      ensures CleanNames(entries) ==> WriteMoment(old(files), files, dir, entries)
      ensures old(history) <= history
      ensures CleanNames(entries) ==>
                forall i | |old(history)| <= i < |history| :: WriteMoment(old(files), history[i], dir, entries)
    {
      ok := true;
      var todo, done := entries.Keys, {};
      ghost var order: seq<string> := [];
      while todo != {}
        invariant Valid() && todo <= entries.Keys && done == entries.Keys - todo
        invariant OrdersSet(order, done) && files == WrittenInOrder(old(files), dir, entries, order)
        invariant forall n | n in done :: !WriteFails(Path(dir, n), x)
        invariant forall p: Path | p.dir != dir :: Look(files, p) == Look(old(files), p)
        invariant CleanNames(entries) ==> WrittenAll(old(files), files, dir, entries, done)
        invariant CleanNames(entries) ==> WriteMoment(old(files), files, dir, entries)
        invariant old(history) <= history
        invariant CleanNames(entries) ==>
                    forall i | |old(history)| <= i < |history| :: WriteMoment(old(files), history[i], dir, entries)
        decreases todo
      {
        var n :| n in todo;
        ok := WriteEntry(dir, entries, n, x, old(files), done);
        if !ok {
          return;
        }
        WriteOneMore(old(files), dir, entries, order, done, n);
        todo, done, order := todo - {n}, done + {n}, order + [n];
      }
      assert done == entries.Keys;
    }

    // syncDir: the listing decides what goes, then the entries are written.
    method SyncDir(dir: Dir, entries: map<string, string>, suffix: string, x: Faults) returns (ok: bool)
      requires Valid()
      modifies this
      ensures Valid()
      ensures ok <==> !SyncFails(dir, entries, x)
      ensures dir in x.mkdir ==> files == old(files)
      ensures forall p: Path | p.dir != dir :: Look(files, p) == Look(old(files), p)
      ensures ok && CleanNames(entries) ==> forall p: Path | p.dir == dir ::
                Look(files, p) == SyncedUnder(x, Look(old(files), p), entries, suffix, p)
      ensures old(history) <= history
      ensures CleanNames(entries) ==> SyncMoment(old(files), files, dir, entries, suffix)
      ensures CleanNames(entries) ==>
                forall i | |old(history)| <= i < |history| :: SyncMoment(old(files), history[i], dir, entries, suffix)
    {
      if dir in x.mkdir {
        return false;
      }
      if dir !in x.readDir {
        RemoveStale(dir, entries, suffix, x);
      }
      ghost var f1, h1 := files, history;
      assert RemovalMoment(old(files), f1, dir, entries, suffix);
      ok := WriteEntries(dir, entries, x);
      if CleanNames(entries) {
        MomentsCompose(old(files), f1, files, dir, entries, suffix);
        forall i | |old(history)| <= i < |history|
          ensures SyncMoment(old(files), history[i], dir, entries, suffix)
        {
          if i < |h1| {
            RemovalIsMoment(old(files), history[i], dir, entries, suffix);
          } else {
            MomentsCompose(old(files), f1, history[i], dir, entries, suffix);
          }
        }
      }
    }

    // The engine's config is written, the other engine's removed.
    method ApplyConfig(b: Bundle, x: Faults) returns (ok: bool)
      requires Valid()
      modifies this
      ensures Valid()
      ensures ok <==> !WriteFails(Path(Root, ConfigFilename(b.engine)), x)
      ensures if ok then PhaseDone(x, old(files), files, b, Root) else Untouched(old(files), files, b)
      ensures ApplyMoment(old(files), files, b)
      ensures old(history) <= history
      ensures forall i | |old(history)| <= i < |history| :: ApplyMoment(old(files), history[i], b)
    {
      var engine := if b.engine == "" then "coredns" else b.engine;
      ok := AtomicWrite(Path(Root, ConfigFilename(engine)), b.corefile, x);
      if ok {
        Remove(Path(Root, OtherConfig(engine)), x);
      }
    }

    // applyBundle: config, zones, keys; the first error stops it.
    method ApplyBundle(b: Bundle, x: Faults) returns (r: ApplyResult)
      requires Valid()
      modifies this
      ensures Valid()
      ensures r == Verdict(b, x)
      ensures CleanBundle(b) && r == Applied ==> AllExpected(x, old(files), files, b)
      ensures CleanBundle(b) ==> ApplyMoment(old(files), files, b)
      ensures old(history) <= history
      ensures CleanBundle(b) ==>
                forall i | |old(history)| <= i < |history| :: ApplyMoment(old(files), history[i], b)
      ensures r == ConfigFailed ==> Untouched(old(files), files, b)
      ensures r == ZonesFailed ==> RootOnly(x, old(files), files, b)
      ensures r == ZonesFailed && Zones in x.mkdir ==> SameIn(old(files), files, Zones)
      ensures r == KeysFailed && CleanBundle(b) ==> AllButKeys(x, old(files), files, b)
      ensures r == KeysFailed && Keys in x.mkdir ==> SameIn(old(files), files, Keys)
    {
      ghost var f0 := files;
      var ok := ApplyConfig(b, x);
      if !ok {
        return ConfigFailed;
      }
      ghost var f1 := files;
      ok := ApplyZones(b, x, f0);
      if !ok {
        return ZonesFailed;
      }
      ghost var f2 := files;
      ok := ApplyKeys(b, x, f0, f1);
      if !ok {
        assert Keys in x.mkdir ==> SameIn(f0, files, Keys);
        return KeysFailed;
      }
      if CleanBundle(b) {
        PhasesCompose(x, f0, f1, f2, files, b);
      }
      return Applied;
    }

    method ApplyZones(b: Bundle, x: Faults, ghost f0: Files) returns (ok: bool)
      requires Valid() && PhaseDone(x, f0, files, b, Root)
      modifies this
      ensures Valid()
      ensures ok <==> !SyncFails(Zones, b.zones, x)
      ensures RootOnly(x, f0, files, b)
      ensures Zones in x.mkdir ==> SameIn(f0, files, Zones)
      ensures ok && CleanBundle(b) ==> PhaseDone(x, old(files), files, b, Zones)
      ensures CleanBundle(b) ==> ApplyMoment(f0, files, b)
      ensures old(history) <= history
      ensures CleanBundle(b) ==> forall i | |old(history)| <= i < |history| :: ApplyMoment(f0, history[i], b)
    {
      ghost var f1 := files;
      ok := SyncDir(Zones, b.zones, ".zone", x);
      if CleanBundle(b) {
        ZonesMoment(x, f0, f1, files, b);
        forall i | |old(history)| <= i < |history| ensures ApplyMoment(f0, history[i], b) {
          ZonesMoment(x, f0, f1, history[i], b);
        }
      }
    }

    method ApplyKeys(b: Bundle, x: Faults, ghost f0: Files, ghost f1: Files) returns (ok: bool)
      requires Valid() && PhaseDone(x, f0, f1, b, Root)
      requires CleanBundle(b) ==> PhaseDone(x, f1, files, b, Zones)
      modifies this
      ensures Valid()
      ensures ok <==> !SyncFails(Keys, b.keyFiles, x)
      ensures Keys in x.mkdir ==> files == old(files)
      ensures ok && CleanBundle(b) ==> PhaseDone(x, old(files), files, b, Keys)
      ensures CleanBundle(b) ==> AllButKeys(x, f0, files, b)
      ensures CleanBundle(b) ==> ApplyMoment(f0, files, b)
      ensures old(history) <= history
      ensures CleanBundle(b) ==> forall i | |old(history)| <= i < |history| :: ApplyMoment(f0, history[i], b)
    {
      ghost var f2 := files;
      ok := SyncDir(Keys, b.keyFiles, "", x);
      if CleanBundle(b) {
        KeysMoment(x, f0, f1, f2, files, b);
        forall i | |old(history)| <= i < |history| ensures ApplyMoment(f0, history[i], b) {
          KeysMoment(x, f0, f1, f2, history[i], b);
        }
      }
    }
  }

  // One directory is as expected, the others are untouched.
  ghost predicate PhaseDone(x: Faults, f0: Files, f: Files, b: Bundle, dir: Dir) {
    forall p: Path :: Look(f, p) == if p.dir == dir then Expected(x, Look(f0, p), b, p) else Look(f0, p)
  }

  ghost predicate AllExpected(x: Faults, f0: Files, f: Files, b: Bundle) {
    forall p :: Look(f, p) == Expected(x, Look(f0, p), b, p)
  }

  // The config is in place, the keys are untouched.
  ghost predicate RootOnly(x: Faults, f0: Files, f: Files, b: Bundle) {
    forall p: Path | p.dir != Zones ::
      Look(f, p) == if p.dir == Root then Expected(x, Look(f0, p), b, p) else Look(f0, p)
  }

  // Config and zones are in place.
  ghost predicate AllButKeys(x: Faults, f0: Files, f: Files, b: Bundle) {
    forall p: Path | p.dir != Keys :: Look(f, p) == Expected(x, Look(f0, p), b, p)
  }

  ghost predicate SameIn(f0: Files, f: Files, dir: Dir) {
    forall p: Path | p.dir == dir :: Look(f, p) == Look(f0, p)
  }

  // At most the config's temporary file differs.
  ghost predicate Untouched(f0: Files, f: Files, b: Bundle) {
    forall p | p != Temp(Path(Root, ConfigFilename(b.engine))) :: Look(f, p) == Look(f0, p)
  }

  lemma ZonesMoment(x: Faults, f0: Files, f1: Files, f: Files, b: Bundle)
    requires PhaseDone(x, f0, f1, b, Root) && SyncMoment(f1, f, Zones, b.zones, ".zone")
    ensures ApplyMoment(f0, f, b)
  {
  }

  lemma KeysMoment(x: Faults, f0: Files, f1: Files, f2: Files, f: Files, b: Bundle)
    requires PhaseDone(x, f0, f1, b, Root) && PhaseDone(x, f1, f2, b, Zones)
    requires SyncMoment(f2, f, Keys, b.keyFiles, "")
    ensures ApplyMoment(f0, f, b)
  {
  }

  lemma PhasesCompose(x: Faults, f0: Files, f1: Files, f2: Files, f3: Files, b: Bundle)
    requires PhaseDone(x, f0, f1, b, Root) && PhaseDone(x, f1, f2, b, Zones) && PhaseDone(x, f2, f3, b, Keys)
    ensures AllExpected(x, f0, f3, b)
  {
  }

  predicate SyncFails(dir: Dir, entries: map<string, string>, x: Faults) {
    dir in x.mkdir || exists n | n in entries :: WriteFails(Path(dir, n), x)
  }

  lemma RemovalIsMoment(f0: Files, f: Files, dir: Dir, entries: map<string, string>, suffix: string)
    requires RemovalMoment(f0, f, dir, entries, suffix)
    ensures SyncMoment(f0, f, dir, entries, suffix)
  {
  }

  lemma MomentsCompose(f0: Files, f1: Files, f: Files, dir: Dir, entries: map<string, string>, suffix: string)
    requires RemovalMoment(f0, f1, dir, entries, suffix) && WriteMoment(f1, f, dir, entries) && CleanNames(entries)
    ensures SyncMoment(f0, f, dir, entries, suffix)
  {
  }

  // ------------------------------------------------------------------ apply

  datatype ApplyResult = Applied | ConfigFailed | ZonesFailed | KeysFailed

  function Verdict(b: Bundle, x: Faults): ApplyResult {
    if WriteFails(Path(Root, ConfigFilename(b.engine)), x) then ConfigFailed
    else if SyncFails(Zones, b.zones, x) then ZonesFailed
    else if SyncFails(Keys, b.keyFiles, x) then KeysFailed
    else Applied
  }

  ghost predicate CleanBundle(b: Bundle) {
    CleanNames(b.zones) && CleanNames(b.keyFiles)
  }

  predicate IsTempPath(b: Bundle, p: Path) {
    match p.dir
    case Root => p.name == ConfigFilename(b.engine) + ".tmp"
    case Zones => IsTemp(b.zones.Keys, p.name)
    case Keys => IsTemp(b.keyFiles.Keys, p.name)
  }

  // What applying a bundle is to leave at a path that held `was`.
  function Ideal(was: Option<string>, b: Bundle, p: Path): Option<string> {
    match p.dir
    case Root =>
      if p.name == ConfigFilename(b.engine) then Some(b.corefile)
      else if p.name == OtherConfig(b.engine) || IsTempPath(b, p) then None
      else was
    case Zones => Synced(was, b.zones, ".zone", p.name)
    case Keys => Synced(was, b.keyFiles, "", p.name)
  }

  // A path that only an ignored failure keeps alive.
  predicate Stuck(x: Faults, b: Bundle, p: Path) {
    match p.dir
    case Root => p.name == OtherConfig(b.engine) && p in x.remove
    case Zones => Removable(p.name, b.zones, ".zone") && !IsTempPath(b, p) && Survives(p, x)
    case Keys => Removable(p.name, b.keyFiles, "") && !IsTempPath(b, p) && Survives(p, x)
  }

  function Expected(x: Faults, was: Option<string>, b: Bundle, p: Path): Option<string> {
    if Stuck(x, b, p) then was else Ideal(was, b, p)
  }

  ghost predicate ApplyMoment(f0: Files, f: Files, b: Bundle) {
    forall p | !IsTempPath(b, p) :: OldOrNew(Look(f0, p), Look(f, p), Ideal(Look(f0, p), b, p))
  }

  ghost predicate WrittenAll(f0: Files, f: Files, dir: Dir, entries: map<string, string>, done: set<string>)
    requires done <= entries.Keys
  {
    forall p: Path :: Look(f, p) == if p.dir == dir then Written(Look(f0, p), entries, done, p.name) else Look(f0, p)
  }

  lemma OneMoreWritten(f0: Files, f1: Files, f: Files, dir: Dir, entries: map<string, string>, done: set<string>,
                       n: string)
    requires done <= entries.Keys && n in entries && CleanNames(entries)
    requires WrittenAll(f0, f1, dir, entries, done)
    requires f == (f1 - {Temp(Path(dir, n))})[Path(dir, n) := entries[n]]
    ensures WrittenAll(f0, f, dir, entries, done + {n})
  {
    forall p: Path
      ensures Look(f, p) ==
              if p.dir == dir then Written(Look(f0, p), entries, done + {n}, p.name) else Look(f0, p)
    {
      TempIsTemp(entries.Keys, n);
      TempIsTemp(done + {n}, n);
      if IsTemp({n}, p.name) {
        TempSplits(p.name);
      }
    }
  }

  lemma MomentOfOneWrite(f0: Files, f1: Files, h: Files, dir: Dir, entries: map<string, string>, done: set<string>,
                         n: string)
    requires done <= entries.Keys && n in entries && WrittenAll(f0, f1, dir, entries, done)
    requires forall q: Path | q != Temp(Path(dir, n)) ::
               Look(h, q) == Look(f1, q) || (q == Path(dir, n) && Look(h, q) == Some(entries[n]))
    ensures WriteMoment(f0, h, dir, entries)
  {
    TempIsTemp(entries.Keys, n);
  }

  ghost predicate RemovalMoment(f0: Files, f: Files, dir: Dir, entries: map<string, string>, suffix: string) {
    forall p :: Look(f, p) == Look(f0, p) || (p.dir == dir && Removable(p.name, entries, suffix) && p !in f)
  }

  // A path after the entries `done` have been written.
  function Written(was: Option<string>, entries: map<string, string>, done: set<string>, name: string): Option<string>
    requires done <= entries.Keys
  {
    if name in done then Some(entries[name]) else if IsTemp(done, name) then None else was
  }

  ghost predicate WriteMoment(f0: Files, f: Files, dir: Dir, entries: map<string, string>) {
    forall p: Path | p.dir != dir || !IsTemp(entries.Keys, p.name) ::
      Look(f, p) == Look(f0, p) || (p.dir == dir && p.name in entries && Look(f, p) == Some(entries[p.name]))
  }

  // -------------------------------------------------------------- convergence

  // The disk carries exactly this bundle: one engine's config, the bundle's
  // zone files and no others, the bundle's key files and nothing else.
  ghost predicate Materialized(f: Files, b: Bundle) {
    && Look(f, Path(Root, ConfigFilename(b.engine))) == Some(b.corefile)
    && Path(Root, OtherConfig(b.engine)) !in f
    && (forall n | n in b.zones :: Look(f, Path(Zones, n)) == Some(b.zones[n]))
    && (forall p: Path | p in f && p.dir == Zones && Ext(p.name) == ".zone" :: p.name in b.zones)
    && (forall n | n in b.keyFiles :: Look(f, Path(Keys, n)) == Some(b.keyFiles[n]))
    && (forall p: Path | p in f && p.dir == Keys :: p.name in b.keyFiles)
  }

  // No file that should go sits behind an operation whose failure is ignored.
  ghost predicate NothingStuck(x: Faults, f0: Files, b: Bundle) {
    forall p | p in f0 :: !Stuck(x, b, p)
  }

  // From any disk at all, leftovers of an interrupted apply included, an apply
  // that reports success leaves exactly the bundle if and only if no ignored
  // failure hit a file that had to go; unrelated siblings keep their contents.
  lemma {:induction false} ApplyConverges(x: Faults, f0: Files, f: Files, b: Bundle)
    requires CleanBundle(b) && AllExpected(x, f0, f, b)
    ensures NothingStuck(x, f0, b) <==> forall p :: Look(f, p) == Ideal(Look(f0, p), b, p)
    ensures NothingStuck(x, f0, b) ==> Materialized(f, b)
    ensures forall p: Path | p.dir == Zones && p.name !in b.zones && Ext(p.name) != ".zone" && !IsTempPath(b, p) ::
              Look(f, p) == Look(f0, p)
  {
    forall p | p in f0 && Stuck(x, b, p)
      ensures Look(f, p) != Ideal(Look(f0, p), b, p)
    {
      assert Look(f, p) == Expected(x, Look(f0, p), b, p);
      assert ConfigFilename(b.engine) != OtherConfig(b.engine);
    }
    if NothingStuck(x, f0, b) {
      forall p ensures Look(f, p) == Ideal(Look(f0, p), b, p) {
        assert Look(f, p) == Expected(x, Look(f0, p), b, p);
        if Stuck(x, b, p) {
          assert p !in f0;
          assert ConfigFilename(b.engine) != OtherConfig(b.engine);
        }
      }
      IdealIsMaterialized(f0, f, b);
    }
  }

  lemma {:induction false} IdealIsMaterialized(f0: Files, f: Files, b: Bundle)
    requires forall p :: Look(f, p) == Ideal(Look(f0, p), b, p)
    ensures Materialized(f, b)
  {
    var config, other := Path(Root, ConfigFilename(b.engine)), Path(Root, OtherConfig(b.engine));
    assert config != other;
    assert Look(f, config) == Ideal(Look(f0, config), b, config);
    assert Look(f, other) == Ideal(Look(f0, other), b, other);
    forall n | n in b.zones ensures Look(f, Path(Zones, n)) == Some(b.zones[n]) {
      assert Look(f, Path(Zones, n)) == Ideal(Look(f0, Path(Zones, n)), b, Path(Zones, n));
    }
    forall n | n in b.keyFiles ensures Look(f, Path(Keys, n)) == Some(b.keyFiles[n]) {
      assert Look(f, Path(Keys, n)) == Ideal(Look(f0, Path(Keys, n)), b, Path(Keys, n));
    }
    forall p: Path | p in f && p.dir == Zones && Ext(p.name) == ".zone" ensures p.name in b.zones {
      assert Look(f, p) == Ideal(Look(f0, p), b, p);
    }
    forall p: Path | p in f && p.dir == Keys ensures p.name in b.keyFiles {
      assert Look(f, p) == Ideal(Look(f0, p), b, p);
    }
  }

  predicate EndsIn(name: string, suffix: string) {
    |suffix| <= |name| && name[|name| - |suffix|..] == suffix
  }

  lemma {:induction false} ExtIsSuffix(name: string)
    ensures EndsIn(name, Ext(name))
  {
    if name != "" && name[|name| - 1] != '.' {
      var init, e := name[..|name| - 1], Ext(name[..|name| - 1]);
      ExtIsSuffix(init);
      assert e != "" ==> name[|name| - |e| - 1..] == init[|init| - |e|..] + [name[|name| - 1]];
    }
  }

  lemma {:induction false} ExtFromLastDot(stem: string, tail: string)
    requires '.' !in tail
    ensures Ext(stem + "." + tail) == "." + tail
  {
    var name := stem + "." + tail;
    if tail != "" {
      var n := |tail| - 1;
      ExtFromLastDot(stem, tail[..n]);
      assert name[..|name| - 1] == stem + "." + tail[..n];
      assert name[|name| - 1] == tail[n];
      assert tail == tail[..n] + [tail[n]];
    }
  }

  // A name's extension is ".zone" exactly if it ends so.
  lemma {:induction false} ZoneNames(name: string)
    ensures Ext(name) == ".zone" <==> EndsIn(name, ".zone")
  {
    ExtIsSuffix(name);
    if EndsIn(name, ".zone") {
      ExtFromLastDot(name[..|name| - 5], "zone");
      assert name == name[..|name| - 5] + "." + "zone";
    }
  }

  // By the names of the files: what a disk that carries a bundle looks like.
  lemma {:induction false} MaterializedMeaning(f: Files, b: Bundle)
    ensures Materialized(f, b) <==>
              && (if b.engine == "hickory"
                  then Look(f, Path(Root, "config.toml")) == Some(b.corefile) && Path(Root, "Corefile") !in f
                  else Look(f, Path(Root, "Corefile")) == Some(b.corefile) && Path(Root, "config.toml") !in f)
              && (forall n | n in b.zones :: Look(f, Path(Zones, n)) == Some(b.zones[n]))
              && (forall p: Path | p in f && p.dir == Zones && EndsIn(p.name, ".zone") :: p.name in b.zones)
              && (forall n | n in b.keyFiles :: Look(f, Path(Keys, n)) == Some(b.keyFiles[n]))
              && (forall p: Path | p in f && p.dir == Keys :: p.name in b.keyFiles)
  {
    forall name: string ensures Ext(name) == ".zone" <==> EndsIn(name, ".zone") {
      ZoneNames(name);
    }
    assert COREFILE != HICKORY_CONFIG;
  }

  // ------------------------------------------------- colliding temporary names

  // Each name once.
  ghost predicate OrdersSet(order: seq<string>, names: set<string>) {
    && (forall n :: n in order <==> n in names)
    && forall i, j | 0 <= i < j < |order| :: order[i] != order[j]
  }

  ghost predicate Orders(order: seq<string>, entries: map<string, string>) {
    OrdersSet(order, entries.Keys)
  }

  // The directory after fault-free atomic writes of these entries in order.
  function WrittenInOrder(f: Files, dir: Dir, entries: map<string, string>, order: seq<string>): Files
    requires forall n | n in order :: n in entries
  {
    if order == [] then f
    else
      var n := order[|order| - 1];
      (WrittenInOrder(f, dir, entries, order[..|order| - 1]) - {Temp(Path(dir, n))})[Path(dir, n) := entries[n]]
  }

  lemma {:induction false} SurvivesOrder(f: Files, dir: Dir, entries: map<string, string>, order: seq<string>, i: nat)
    requires forall n | n in order :: n in entries
    requires i < |order| && forall j | i < j < |order| :: order[j] != order[i]
    ensures Look(WrittenInOrder(f, dir, entries, order), Path(dir, order[i])) ==
            if exists j | i < j < |order| :: order[i] == order[j] + ".tmp" then None else Some(entries[order[i]])
  {
    var last := |order| - 1;
    var init := order[..last];
    if i < last {
      SurvivesOrder(f, dir, entries, init, i);
      assert (exists j | i < j < |order| :: order[i] == order[j] + ".tmp") <==>
             (exists j | i < j < last :: init[i] == init[j] + ".tmp") || order[i] == order[last] + ".tmp" by {
        if j :| i < j < |order| && order[i] == order[j] + ".tmp" && j != last {
          assert init[i] == init[j] + ".tmp";
        }
        if j :| i < j < last && init[i] == init[j] + ".tmp" {
          assert order[i] == order[j] + ".tmp";
        }
      }
    }
  }

  lemma WriteOneMore(f: Files, dir: Dir, entries: map<string, string>, order: seq<string>, done: set<string>, n: string)
    requires OrdersSet(order, done) && done <= entries.Keys && n in entries && n !in done
    ensures OrdersSet(order + [n], done + {n})
    ensures WrittenInOrder(f, dir, entries, order + [n]) ==
            (WrittenInOrder(f, dir, entries, order) - {Temp(Path(dir, n))})[Path(dir, n) := entries[n]]
  {
    assert (order + [n])[..|order|] == order;
  }

  // All entries of the order are on disk after it.
  ghost predicate KeepsAll(f: Files, dir: Dir, entries: map<string, string>, order: seq<string>)
    requires forall n | n in order :: n in entries
  {
    forall n | n in order :: Look(WrittenInOrder(f, dir, entries, order), Path(dir, n)) == Some(entries[n])
  }

  // No entry of the order is written before one whose temporary name it has.
  ghost predicate TempsFirst(order: seq<string>) {
    forall i, j | 0 <= i < j < |order| :: order[i] != order[j] + ".tmp"
  }

  // When an entry is named like another's temporary file, the outcome depends
  // on the map order: all entries are on disk at the end if and only if none
  // was written before the entry whose temporary name it has.
  lemma {:induction false} CollisionDependsOnOrder(f: Files, dir: Dir, entries: map<string, string>, order: seq<string>)
    requires forall n | n in order :: n in entries
    requires forall i, j | 0 <= i < j < |order| :: order[i] != order[j]
    ensures KeepsAll(f, dir, entries, order) <==> TempsFirst(order)
  {
    forall i | 0 <= i < |order|
      ensures Look(WrittenInOrder(f, dir, entries, order), Path(dir, order[i])) == Some(entries[order[i]])
              <==> forall j | i < j < |order| :: order[i] != order[j] + ".tmp"
    {
      SurvivesOrder(f, dir, entries, order, i);
    }
    if KeepsAll(f, dir, entries, order) {
      forall i, j | 0 <= i < j < |order| ensures order[i] != order[j] + ".tmp" {
        assert order[i] in order;
      }
    }
  }

  lemma {:induction false} SomeOrder(names: set<string>) returns (order: seq<string>)
    ensures OrdersSet(order, names)
  {
    order := [];
    if names != {} {
      var n :| n in names;
      order := SomeOrder(names - {n});
      order := order + [n];
    }
  }

  // Whatever the map's order, a fault-free write keeps all entries: exactly for
  // names of which none is another's temporary name.
  lemma {:induction false} CleanNamesSafeInAnyOrder(f: Files, dir: Dir, entries: map<string, string>)
    ensures (forall order | Orders(order, entries) :: KeepsAll(f, dir, entries, order)) <==> CleanNames(entries)
  {
    if CleanNames(entries) {
      forall order | Orders(order, entries) ensures KeepsAll(f, dir, entries, order) {
        forall i, j | 0 <= i < j < |order| ensures order[i] != order[j] + ".tmp" {
          TempIsTemp(entries.Keys, order[j]);
        }
        CollisionDependsOnOrder(f, dir, entries, order);
      }
    } else {
      var n :| n in entries && IsTemp(entries.Keys, n);
      TempSplits(n);
      var rest := SomeOrder(entries.Keys - {n});
      var order := [n] + rest;
      var m := n[..|n| - 4];
      assert m in rest;
      var j :| 0 <= j < |rest| && rest[j] == m;
      assert order[0] == order[j + 1] + ".tmp";
      assert forall o :: o in order <==> o in entries;
      CollisionDependsOnOrder(f, dir, entries, order);
      assert Orders(order, entries) && !KeepsAll(f, dir, entries, order);
    }
  }
}
