/** The proxy's desired-state engine, internal/proxy/proxy.go: Sync as a transaction over
    the proxy VM's files. Any call into the VM may fail, having taken effect or not. */
module Sync {
  import opened Text
  import opened Allowlist
  import opened Ports
  import opened Squid
  import opened AllowlistSeeds

  const CONF_PATH := "/etc/squid/squid.conf"
  const ALLOWLIST_PATH := "/etc/squid/allowed_domains.txt"
  const CANDIDATE_PATH := CONF_PATH + ".ptrbox-new"
  const RENDERED_FILE := "ptrbox-proxy.squid.conf"

  type Files = map<string, string>

  datatype SyncResult = Unchanged | Applied | Rejected

  datatype File = File(path: string, content: string)

  /** A file to push, with what was read there before. */
  datatype Push = Push(file: File, prev: string, existed: bool)

  // --- file maps ---------------------------------------------------------------------------

  function Put(disk: Files, files: seq<File>): Files {
    if files == [] then disk
    else
      var f := files[|files| - 1];
      Put(disk, files[..|files| - 1])[f.path := f.content]
  }

  function RolledBack(disk: Files, pushes: seq<Push>): Files {
    if pushes == [] then disk
    else
      var p := pushes[|pushes| - 1];
      var before := RolledBack(disk, pushes[..|pushes| - 1]);
      if p.existed then before[p.file.path := p.prev] else before - {p.file.path}
  }

  function FilesOf(pushes: seq<Push>): seq<File> {
    seq(|pushes|, i requires 0 <= i < |pushes| => pushes[i].file)
  }

  ghost predicate Distinct(files: seq<File>) {
    forall i, j :: 0 <= i < j < |files| ==> files[i].path != files[j].path
  }

  ghost predicate Holds(disk: Files, f: File) {
    f.path in disk && disk[f.path] == f.content
  }

  ghost predicate Touches(files: seq<File>, path: string) {
    exists i :: 0 <= i < |files| && files[i].path == path
  }

  /** At one path, two disks agree: same text, or both nothing. */
  ghost predicate Same(a: Files, b: Files, path: string) {
    (path in a <==> path in b) && (path in a ==> a[path] == b[path])
  }

  lemma {:induction false} PutAt(disk: Files, files: seq<File>)
    requires Distinct(files)
    ensures forall i :: 0 <= i < |files| ==> Holds(Put(disk, files), files[i])
    ensures forall path :: !Touches(files, path) ==> Same(Put(disk, files), disk, path)
  {
    if files != [] {
      var n := |files| - 1;
      PutAt(disk, files[..n]);
      assert forall i :: 0 <= i < n ==> files[..n][i] == files[i];
      forall path | !Touches(files, path) ensures Same(Put(disk, files), disk, path) {
        assert files[n].path != path;
        assert !Touches(files[..n], path);
      }
    }
  }

  lemma {:induction false} RolledBackAt(disk: Files, pushes: seq<Push>)
    requires Distinct(FilesOf(pushes))
    ensures forall i :: 0 <= i < |pushes| ==> AsRead(RolledBack(disk, pushes), pushes[i])
    ensures forall path :: !Touches(FilesOf(pushes), path) ==> Same(RolledBack(disk, pushes), disk, path)
  {
    if pushes != [] {
      var n := |pushes| - 1;
      var before := pushes[..n];
      assert FilesOf(before) == FilesOf(pushes)[..n];
      RolledBackAt(disk, before);
      var last := pushes[n].file.path;
      forall i | 0 <= i < n ensures before[i] == pushes[i] && pushes[i].file.path != last {
        assert FilesOf(pushes)[i].path != FilesOf(pushes)[n].path;
      }
      assert forall i :: 0 <= i < n ==> AsRead(RolledBack(disk, before), before[i]);
      forall path | !Touches(FilesOf(pushes), path) ensures Same(RolledBack(disk, pushes), disk, path) {
        assert FilesOf(pushes)[n].path != path;
        assert !Touches(FilesOf(before), path);
      }
    }
  }

  ghost predicate AsRead(disk: Files, p: Push) {
    if p.existed then Holds(disk, File(p.file.path, p.prev)) else p.file.path !in disk
  }

  lemma SameEverywhere(a: Files, b: Files)
    requires forall path :: Same(a, b, path)
    ensures a == b
  {
    assert forall path :: path in a ==> Same(a, b, path);
    assert forall path :: path in b ==> Same(a, b, path);
  }

  // --- what should be on the disk --------------------------------------------------------------

  /** The comment ensureVMAllowlist writes above a seed. */
  function SeedHeader(name: string, today: string): seq<string> {
    ["# Egress allowlist for VM \"" + name + "\", seeded from allowed_domains.txt on " + today + ".",
     "# This file alone decides " + "what this VM may CONNECT to - edit it with",
     "# `ptrbox allow " + name + "`, or delete it to re-seed from the template.",
     "# The `@requires` groups follow " + "this VM's config on each `ptrbox new`;",
     "# everything else in the file is yours.",
     ""]
  }

  ghost function ListFiles(names: seq<string>, lists: map<string, string>): seq<File>
    requires forall n <- names :: n in lists
  {
    seq(|names|, i requires 0 <= i < |names| => File(VMListPath(names[i]), lists[names[i]]))
  }

  /** Everything squid serves besides its config, in push order. */
  ghost function Desired(template: string, ports: map<string, int>, lists: map<string, string>): seq<File>
    requires forall n :: n in ports ==> n in lists
  {
    [File(ALLOWLIST_PATH, template)] + ListFiles(Sorted(ports.Keys), lists)
    + [File(VM_ACCESS_PATH, Unlines(AccessLines(ports)))]
  }

  ghost predicate Ordinary(path: string) {
    path != CONF_PATH && path != CANDIDATE_PATH
  }

  lemma ListPathsDiffer(a: string, b: string)
    ensures VMListPath(a) == VMListPath(b) ==> a == b
    ensures VMListPath(a) != ALLOWLIST_PATH && VMListPath(a) != VM_ACCESS_PATH && Ordinary(VMListPath(a))
  {
    var p := VM_ALLOWLIST_DIR;
    assert p[18] == '.' && ALLOWLIST_PATH[18] == '_' && p[11] == 'a' && VM_ACCESS_PATH[11] == 'v' && CONF_PATH[11] == 's';
    assert VMListPath(a)[18] == '.' && VMListPath(a)[11] == 'a' && CANDIDATE_PATH[11] == 's';
    var n := |VM_ALLOWLIST_DIR| + 1;
    assert VMListPath(a)[n..|VMListPath(a)| - 4] == a && VMListPath(b)[n..|VMListPath(b)| - 4] == b;
  }

  lemma FixedPathsDiffer()
    ensures ALLOWLIST_PATH != VM_ACCESS_PATH && Ordinary(ALLOWLIST_PATH) && Ordinary(VM_ACCESS_PATH)
    ensures CONF_PATH != CANDIDATE_PATH && !(VM_ALLOWLIST_DIR + "/" <= CANDIDATE_PATH)
  {
    assert VM_ALLOWLIST_DIR[11] == 'a';
    assert ALLOWLIST_PATH[11] == 'a' && VM_ACCESS_PATH[11] == 'v' && CONF_PATH[11] == 's' && CANDIDATE_PATH[11] == 's';
    assert |CANDIDATE_PATH| > |CONF_PATH|;
  }

  /** No two desired files share a path, and none is the config or its candidate. */
  lemma DesiredIsDistinct(template: string, ports: map<string, int>, lists: map<string, string>)
    requires forall n :: n in ports ==> n in lists
    ensures Distinct(Desired(template, ports, lists))
    ensures forall f <- Desired(template, ports, lists) :: Ordinary(f.path)
  {
    hide VMListPath, AccessLines, Unlines, Ordinary;
    var names := Sorted(ports.Keys);
    var d := Desired(template, ports, lists);
    FixedPathsDiffer();
    forall i | 0 < i < |d| - 1 ensures d[i].path == VMListPath(names[i - 1]) && Ordinary(d[i].path) {
      assert d[i] == ListFiles(names, lists)[i - 1];
      ListPathsDiffer(names[i - 1], names[i - 1]);
    }
    forall i, j | 0 <= i < j < |d| ensures d[i].path != d[j].path {
      if 0 < i && j < |d| - 1 {
        ListPathsDiffer(names[i - 1], names[j - 1]);
      } else if 0 < i {
        ListPathsDiffer(names[i - 1], names[i - 1]);
      } else if j < |d| - 1 {
        ListPathsDiffer(names[j - 1], names[j - 1]);
      }
    }
  }

  /** What `squid -k parse` looks at besides the config named on its command line. */
  ghost function Support(disk: Files): Files {
    disk - {CONF_PATH, CANDIDATE_PATH}
  }

  function ConfText(disk: Files): string {
    if CONF_PATH in disk then disk[CONF_PATH] else ""
  }

  ghost predicate InPlace(disk: Files, desired: seq<File>, conf: string) {
    (forall i :: 0 <= i < |desired| ==> Holds(disk, desired[i])) && ConfText(disk) == conf
  }

  /** Two disks that differ at most in a leftover candidate, which only the first may lack. */
  ghost predicate UpToCandidate(disk: Files, wanted: Files) {
    disk == wanted || disk == wanted - {CANDIDATE_PATH}
  }

  /** What of `desired` has to be pushed onto `disk`, with what was read where. */
  ghost predicate IsDiff(disk: Files, honest: bool, pushes: seq<Push>, desired: seq<File>) {
    && Distinct(FilesOf(pushes))
    && (forall i :: 0 <= i < |pushes| ==> pushes[i].file in desired)
    && (forall f <- desired :: Holds(disk, f) || f in FilesOf(pushes))
    && (forall i :: 0 <= i < |pushes| && pushes[i].existed ==> AsRead(disk, pushes[i]))
    && (honest ==> forall i :: 0 <= i < |pushes| ==> AsRead(disk, pushes[i]) && !Holds(disk, pushes[i].file))
  }

  /** Pushing the difference puts every desired file in place. */
  lemma PushingIsPutting(disk: Files, honest: bool, pushes: seq<Push>, desired: seq<File>)
    requires Distinct(desired) && IsDiff(disk, honest, pushes, desired)
    ensures Put(disk, FilesOf(pushes)) == Put(disk, desired)
  {
    hide Put;
    var files := FilesOf(pushes);
    PutAt(disk, files);
    PutAt(disk, desired);
    var a, b := Put(disk, files), Put(disk, desired);
    forall path ensures Same(a, b, path) {
      if Touches(files, path) {
        var i :| 0 <= i < |files| && files[i].path == path;
        assert files[i] == pushes[i].file && pushes[i].file in desired;
        var j :| 0 <= j < |desired| && desired[j] == files[i];
        assert Holds(a, files[i]) && Holds(b, desired[j]);
      } else if Touches(desired, path) {
        var j :| 0 <= j < |desired| && desired[j].path == path;
        assert desired[j] in desired;
        assert Holds(disk, desired[j]) && Holds(b, desired[j]);
      }
    }
    SameEverywhere(a, b);
  }

  ghost predicate AllOrdinary(files: seq<File>) {
    forall i :: 0 <= i < |files| ==> Ordinary(files[i].path)
  }

  lemma DiffIsOrdinary(disk: Files, honest: bool, pushes: seq<Push>, desired: seq<File>)
    requires IsDiff(disk, honest, pushes, desired) && forall f <- desired :: Ordinary(f.path)
    ensures AllOrdinary(FilesOf(pushes))
  {
    forall i | 0 <= i < |pushes| ensures Ordinary(FilesOf(pushes)[i].path) {
      assert pushes[i].file in desired;
    }
  }

  /** Pushing some of the files leaves the config and the candidate alone. */
  lemma PushingSparesConfig(disk: Files, files: seq<File>)
    requires AllOrdinary(files) && Distinct(files)
    ensures Same(Put(disk, files), disk, CONF_PATH) && Same(Put(disk, files), disk, CANDIDATE_PATH)
  {
    PutAt(disk, files);
    assert !Touches(files, CONF_PATH) && !Touches(files, CANDIDATE_PATH);
  }

  /** Rolling a push back, read honestly, gives the disk there was. */
  lemma RollingBackUndoes(disk: Files, pushes: seq<Push>, desired: seq<File>, gone: Files)
    requires IsDiff(disk, true, pushes, desired) && AllOrdinary(FilesOf(pushes))
    requires gone == Put(disk, FilesOf(pushes)) || gone == Put(disk, FilesOf(pushes)) - {CANDIDATE_PATH}
    ensures UpToCandidate(RolledBack(gone, pushes), disk)
  {
    hide Put, RolledBack;
    var files := FilesOf(pushes);
    PutAt(disk, files);
    RolledBackAt(gone, pushes);
    PushingSparesConfig(disk, files);
    assert !Touches(files, CANDIDATE_PATH);
    var back := RolledBack(gone, pushes);
    var wanted := if gone == Put(disk, files) then disk else disk - {CANDIDATE_PATH};
    forall path ensures Same(back, wanted, path) {
      if Touches(files, path) {
        var i :| 0 <= i < |files| && files[i].path == path;
        assert files[i] == pushes[i].file && AsRead(back, pushes[i]) && AsRead(disk, pushes[i]);
      } else {
        assert Same(back, gone, path) && Same(Put(disk, files), disk, path);
      }
    }
    SameEverywhere(back, wanted);
  }

  /** Rolling back a push undoes it exactly when each read before it told the truth: a file
      that could not be read is taken for absent, and removed. */
  lemma RollingBackExactly(disk: Files, pushes: seq<Push>)
    requires Distinct(FilesOf(pushes)) && AllOrdinary(FilesOf(pushes))
    ensures RolledBack(Put(disk, FilesOf(pushes)), pushes) == disk <==> forall i :: 0 <= i < |pushes| ==> AsRead(disk, pushes[i])
  {
    hide Put, RolledBack;
    var files := FilesOf(pushes);
    var put := Put(disk, files);
    var back := RolledBack(put, pushes);
    PutAt(disk, files);
    RolledBackAt(put, pushes);
    if forall i :: 0 <= i < |pushes| ==> AsRead(disk, pushes[i]) {
      forall path ensures Same(back, disk, path) {
        if Touches(files, path) {
          var i :| 0 <= i < |files| && files[i].path == path;
          assert files[i] == pushes[i].file && AsRead(back, pushes[i]) && AsRead(disk, pushes[i]);
        } else {
          assert Same(back, put, path) && Same(put, disk, path);
        }
      }
      SameEverywhere(back, disk);
    }
  }

  // --- the proxy -----------------------------------------------------------------------------------

  class Proxy {
    /** ~/.config/ptrbox/allowed_domains.txt */
    var template: Option<string>
    /** ~/.config/ptrbox/allowed_domains.d/, by VM */
    var lists: map<string, string>
    /** The features of each VM's resolved config, None where it does not parse. */
    var overlay: string -> Option<Features>
    const gen: GeneratedDir
    /** squid.conf as rendered from the shipped template. */
    const conf: string
    /** Today's date, as a seed's header carries it. */
    const today: string
    /** squid's parser: a config and the files it may reference. */
    const parses: (string, Files) -> bool
    /** No call fails, in the VM or on the host, but a reload may, and a removal at one of the
        paths `stuck`. */
    const steady: bool
    const stuck: set<string>
    /** The paths at which no write and no removal fails, whatever else does. */
    const sure: set<string>
    /** Whether reloads work; None when any of them may or may not. */
    const reloads: Option<bool>

    /** The proxy VM's files, every state they have been in, and whether the directory of the
        lists is there. */
    var disk: Files
    var made: bool
    ghost var trace: seq<Files>
    /** The files squid last loaded. */
    ghost var loaded: Files
    /** Every `cat` so far failed only where there was no file. */
    ghost var honest: bool

    constructor (gen: GeneratedDir, conf: string, today: string, parses: (string, Files) -> bool,
                 overlay: string -> Option<Features>, disk: Files, steady: bool, reloads: Option<bool>,
                 stuck: set<string>, sure: set<string>)
      ensures this.steady == steady && this.reloads == reloads && this.stuck == stuck && this.sure == sure
      ensures this.gen == gen && this.conf == conf && this.today == today && this.parses == parses
      ensures this.overlay == overlay && this.disk == disk && trace == [] && honest && template == None && lists == map[]
    {
      this.gen, this.conf, this.today, this.parses := gen, conf, today, parses;
      this.overlay, this.disk, this.steady, this.reloads, this.stuck, this.sure := overlay, disk, steady, reloads, stuck, sure;
      made := false;
      trace, loaded, honest, template, lists := [], map[], true, None, map[];
    }

    ghost predicate Parsed(d: Files)
    {
      CONF_PATH in d && parses(d[CONF_PATH], Support(d))
    }

    /** squid runs on what is on the disk. */
    ghost predicate Live()
      reads this`disk, this`loaded
    {
      Support(loaded) == Support(disk) && Same(loaded, disk, CONF_PATH)
    }

    /** A list for this VM can be seeded. */
    ghost predicate Seedable(name: string)
      reads this`template, this`overlay
    {
      template.Some? && overlay(name).Some? && SeedLines(ScanLines(template.value), overlay(name).value).Ok?
    }

    /** What the host holds is in order. */
    ghost predicate Sound()
      reads this`template, this`overlay, gen
    {
      template.Some? && Readable(gen.files) && forall n :: n in Held(gen.files) ==> Seedable(n)
    }

    ghost function Wanted(): seq<File>
      reads this`template, this`lists, gen
      requires template.Some? && Readable(gen.files) && forall n :: n in Held(gen.files) ==> n in lists
    {
      Desired(template.value, Held(gen.files), lists)
    }

    /** The disk is as the host wants it. */
    ghost predicate Settled()
      reads this`template, this`lists, this`disk, gen
    {
      Ready() && InPlace(disk, Wanted(), conf)
    }

    /** Nothing fails but a reload. */
    ghost predicate Smooth()
    {
      steady && stuck == {}
    }

    // --- calls into the VM

    method Cat(path: string) returns (text: string, ok: bool)
      modifies this`honest
      ensures ok ==> path in disk && text == disk[path]
      ensures !ok ==> text == ""
      ensures honest == (old(honest) && (path in disk ==> ok))
      ensures steady && path in disk ==> ok
    {
      ok := *;
      ok := ok || steady;
      if path !in disk {
        ok := false;
      }
      honest := honest && (path in disk ==> ok);
      text := if ok then disk[path] else "";
    }

    /** mkdir -p for the lists. */
    method MakeDir() returns (ok: bool)
      modifies this`made
      ensures ok ==> made
      ensures old(made) ==> made
      ensures steady ==> ok
    {
      ok := *;
      ok := ok || steady;
      made := made || ok;
    }

    /** tee: without its directory a list is not written. */
    method Tee(path: string, content: string) returns (ok: bool)
      modifies this`disk, this`trace
      ensures disk == old(disk)[path := content] || (!ok && disk == old(disk))
      ensures trace == old(trace) + [disk]
      ensures ok ==> Reachable(path)
      ensures (steady || path in sure) && Reachable(path) ==> ok
    {
      ok := *;
      ok := ok || steady || path in sure;
      var done: bool := *;
      if VM_ALLOWLIST_DIR + "/" <= path && !made {
        ok, done := false, false;
      }
      if ok || done {
        disk := disk[path := content];
      }
      trace := trace + [disk];
    }

    ghost predicate Reachable(path: string)
      reads this`made
    {
      VM_ALLOWLIST_DIR + "/" <= path ==> made
    }

    /** rm -f */
    method Remove(path: string) returns (ok: bool)
      modifies this`disk, this`trace
      ensures disk == old(disk) - {path} || (!ok && disk == old(disk))
      ensures trace == old(trace) + [disk]
      ensures path in sure || (steady && path !in stuck) ==> ok
      ensures path !in sure && path in stuck ==> !ok && disk == old(disk)
    {
      ok := *;
      ok := ok || steady;
      var done: bool := *;
      if path in stuck {
        ok, done := false, false;
      }
      if ok || done || path in sure {
        disk := disk - {path};
      }
      ok := ok || path in sure;
      trace := trace + [disk];
    }

    method Move(from: string, to: string) returns (ok: bool)
      requires from != to
      modifies this`disk, this`trace
      ensures from in old(disk) ==> disk == (old(disk) - {from})[to := old(disk)[from]] || (!ok && disk == old(disk))
      ensures from !in old(disk) ==> !ok && disk == old(disk)
      ensures trace == old(trace) + [disk]
      ensures steady && from in old(disk) ==> ok
    {
      ok := *;
      ok := ok || steady;
      var done: bool := *;
      if from !in disk {
        ok := false;
      } else if ok || done {
        disk := (disk - {from})[to := disk[from]];
      }
      trace := trace + [disk];
    }

    method Parse(path: string) returns (ok: bool)
      ensures ok ==> path in disk && parses(disk[path], Support(disk))
      ensures steady && path in disk ==> ok == parses(disk[path], Support(disk))
    {
      var reached: bool := *;
      ok := (reached || steady) && path in disk && parses(disk[path], disk - {CONF_PATH, CANDIDATE_PATH});
    }

    /** restart or reconfigure. One that fails may have taken effect. */
    method Reload() returns (ok: bool)
      modifies this`loaded
      ensures loaded == disk || (!ok && loaded == old(loaded))
      ensures reloads.Some? ==> ok == reloads.value
      ensures reloads == Some(false) ==> loaded == old(loaded)
    {
      ok := *;
      var done: bool := *;
      if reloads.Some? {
        ok, done := reloads.value, false;
      }
      if ok || done {
        loaded := disk;
      }
    }

    /** The proxy VM boots: squid comes up on what is on the disk, if that parses. */
    ghost method Boot()
      modifies this`loaded
      ensures Parsed(disk) ==> loaded == disk && Live()
    {
      if Parsed(disk) {
        loaded := disk;
      } else {
        loaded := *;
      }
    }

    // --- the host half

    ghost predicate SeedOf(name: string, text: string)
      reads this`template, this`overlay
    {
      template.Some? && overlay(name).Some? &&
      var seed := SeedLines(ScanLines(template.value), overlay(name).value);
      seed.Ok? && text == Unlines(SeedHeader(name, today)) + Unlines(seed.value)
    }

    /** ensureVMAllowlist behind vmSeed: the VM's list, seeded when it has none. An error may
        follow a list that was written: the manifest line comes after it. */
    method EnsureVMAllowlist(name: string) returns (body: Option<string>)
      modifies this`lists
      ensures body.Some? ==> name in lists && lists[name] == body.value
      ensures name in old(lists) ==> lists == old(lists)
      ensures name !in old(lists) && lists != old(lists) ==>
                name in lists && SeedOf(name, lists[name]) && lists == old(lists)[name := lists[name]]
      ensures steady && Seedable(name) ==> body.Some?
    {
      if template.None? || overlay(name).None? {
        return None;
      }
      var seed := SeedFor(template.value, overlay(name).value);
      if seed.Err? {
        return None;
      }
      var readable: bool := *;
      if name in lists {
        return if readable || steady then Some(lists[name]) else None;
      }
      var wrote: bool := *;
      if !wrote && !steady {
        return None;
      }
      var text := Unlines(SeedHeader(name, today)) + seed.value;
      lists := lists[name := text];
      var recorded: bool := *;
      return if recorded || steady then Some(text) else None;
    }

    /** SeedAllowlist: the shipped template, for a user who has none. An error may follow a
        template that was written. */
    method SeedAllowlist(shipped: string) returns (seeded: bool, err: bool)
      modifies this`template
      ensures old(template).Some? ==> template == old(template) && !seeded && !err
      ensures old(template).None? ==> template == (if seeded then Some(shipped) else None)
      ensures !err ==> template.Some?
      ensures steady ==> !err
    {
      if template.Some? {
        return false, false;
      }
      var wrote: bool := *;
      if !wrote && !steady {
        return false, true;
      }
      template := Some(shipped);
      seeded := true;
      err := *;
      err := err && !steady;
    }

    /** ReconcileVMAllowlist: an existing list brought into line with the VM's config, or an
        error and no change. */
    method ReconcileVMAllowlist(name: string) returns (changes: Option<seq<Change>>)
      modifies this`lists
      ensures changes.None? ==> lists == old(lists)
      ensures name !in old(lists) ==> lists == old(lists) && changes.Some?
      ensures steady && Seedable(name) ==> changes.Some?
      ensures changes.Some? && name in old(lists) ==>
                && template.Some? && overlay(name).Some?
                && SeedLines(ScanLines(template.value), overlay(name).value).Ok?
                && GroupsFrom(ScanLines(template.value), None).Ok?
                && var groups := GroupsFrom(ScanLines(template.value), None).value;
                   && lists == old(lists)[name := ReconciledText(old(lists)[name], groups, overlay(name).value)]
                   && changes.value == ReconcileChanges(BodyLines(old(lists)[name]), groups, overlay(name).value)
    {
      hide SeedLines, GroupsFrom, ReconciledText, ReconcileChanges, ScanLines, BodyLines;
      if name !in lists {
        return Some([]);
      }
      if template.None? || overlay(name).None? {
        return None;
      }
      var seed := SeedFor(template.value, overlay(name).value);
      if seed.Err? {
        return None;
      }
      AcceptanceIgnoresFeatures(ScanLines(template.value), overlay(name).value, overlay(name).value);
      var groups := TemplateGroups(template.value);
      if groups.Err? {
        return None;
      }
      var updated, done := Reconcile(lists[name], groups.value, overlay(name).value);
      if updated == lists[name] {
        assert lists[name := updated] == lists;
        return Some(done);
      }
      var wrote: bool := *;
      if !wrote && !steady {
        return None;
      }
      lists := lists[name := updated];
      return Some(done);
    }

    /** Every list that was not there before is a fresh seed; the others are untouched. */
    ghost predicate OnlySeeded(before: map<string, string>, after: map<string, string>)
      reads this`template, this`overlay
    {
      && (forall n :: n in before ==> n in after && after[n] == before[n])
      && (forall n :: n in after && n !in before ==> SeedOf(n, after[n]))
    }

    /** The lists of the VMs named, each seeded on the way if it is missing. */
    method GatherLists(names: seq<string>) returns (files: Option<seq<File>>)
      modifies this`lists
      ensures OnlySeeded(old(lists), lists)
      ensures forall n :: n in lists && n !in old(lists) ==> n in names
      ensures files.Some? ==> (forall n <- names :: n in lists) && files.value == ListFiles(names, lists)
      ensures steady && (forall n <- names :: Seedable(n)) ==> files.Some?
    {
      hide SeedOf, VMListPath, Seedable;
      var gathered: seq<File> := [];
      for i := 0 to |names|
        invariant OnlySeeded(old(lists), lists)
        invariant forall n :: n in lists && n !in old(lists) ==> n in names
        invariant |gathered| == i
        invariant forall j :: 0 <= j < i ==> names[j] in lists && gathered[j] == File(VMListPath(names[j]), lists[names[j]])
      {
        var body := EnsureVMAllowlist(names[i]);
        if body.None? {
          return None;
        }
        gathered := gathered + [File(VMListPath(names[i]), body.value)];
      }
      assert gathered == ListFiles(names, lists);
      return Some(gathered);
    }

    /** The desired files, in push order. */
    method Gather(ports: map<string, int>) returns (desired: Option<seq<File>>)
      requires template.Some?
      modifies this`lists
      ensures OnlySeeded(old(lists), lists)
      ensures forall n :: n in lists && n !in old(lists) ==> n in ports
      ensures desired.Some? ==> (forall n :: n in ports ==> n in lists)
                                && desired.value == Desired(template.value, ports, lists)
      ensures steady && (forall n :: n in ports ==> Seedable(n)) ==> desired.Some?
    {
      hide SeedOf, VMListPath, Seedable, Unlines, AccessLines, Sorted, OnlySeeded;
      var names := SortNames(ports.Keys);
      var files := GatherLists(names);
      if files.None? {
        return None;
      }
      var access := VMAccessConf(ports);
      assert forall n :: n in ports ==> n in names;
      return Some([File(ALLOWLIST_PATH, template.value)] + files.value + [File(VM_ACCESS_PATH, access)]);
    }

    // --- the diff, the push and the way back

    method Diff(desired: seq<File>) returns (pushes: seq<Push>)
      requires Distinct(desired)
      modifies this`honest
      ensures IsDiff(disk, honest, pushes, desired)
      ensures honest ==> old(honest)
      ensures steady ==> honest == old(honest)
    {
      pushes := [];
      for i := 0 to |desired|
        invariant honest ==> old(honest)
        invariant steady ==> honest == old(honest)
        invariant IsDiff(disk, honest, pushes, desired[..i])
      {
        var f := desired[i];
        ghost var before, wasHonest := pushes, honest;
        var current, ok := Cat(f.path);
        if !(ok && current == f.content) {
          pushes := pushes + [Push(f, current, ok)];
          assert FilesOf(pushes) == FilesOf(before) + [f];
          forall k | 0 <= k < |before| ensures FilesOf(pushes)[k].path != f.path {
            assert before[k].file in desired[..i];
            var m :| 0 <= m < i && desired[m] == before[k].file;
          }
        }
        assert desired[..i + 1] == desired[..i] + [f];
      }
      assert desired[..|desired|] == desired;
    }

    method PushAll(pushes: seq<Push>) returns (ok: bool)
      modifies this`disk, this`trace
      ensures ok ==> disk == Put(old(disk), FilesOf(pushes))
      ensures steady && made ==> ok
      ensures exists n :: 0 <= n <= |pushes| && disk == Put(old(disk), FilesOf(pushes[..n]))
      ensures |trace| >= |old(trace)| && trace[..|old(trace)|] == old(trace)
      ensures forall i :: |old(trace)| <= i < |trace| ==>
                exists n :: 0 <= n <= |pushes| && trace[i] == Put(old(disk), FilesOf(pushes[..n]))
    {
      var n := 0;
      assert FilesOf(pushes[..0]) == [];
      while n < |pushes|
        invariant 0 <= n <= |pushes|
        invariant disk == Put(old(disk), FilesOf(pushes[..n]))
        invariant |trace| >= |old(trace)| && trace[..|old(trace)|] == old(trace)
        invariant forall i :: |old(trace)| <= i < |trace| ==>
                    exists m :: 0 <= m <= |pushes| && trace[i] == Put(old(disk), FilesOf(pushes[..m]))
      {
        var p := pushes[n];
        ghost var before := FilesOf(pushes[..n]);
        assert FilesOf(pushes[..n + 1]) == before + [p.file];
        assert (before + [p.file])[..n] == before;
        ok := Tee(p.file.path, p.file.content);
        if !ok {
          assert disk == Put(old(disk), FilesOf(pushes[..n])) || disk == Put(old(disk), FilesOf(pushes[..n + 1]));
          return false;
        }
        n := n + 1;
      }
      assert pushes[..|pushes|] == pushes;
      return true;
    }

    ghost predicate Restored(pushes: seq<Push>)
      reads this`disk
    {
      forall i :: 0 <= i < |pushes| && pushes[i].file.path in sure ==> AsRead(disk, pushes[i])
    }

    /** One pushed file, back to what was read there. */
    method PutBack(p: Push) returns (ok: bool)
      modifies this`disk, this`trace
      ensures disk == RolledBack(old(disk), [p]) || (!ok && disk == old(disk))
      ensures ok || Same(disk, old(disk), p.file.path) ==> disk == RolledBack(old(disk), [p]) || disk == old(disk)
      ensures ok ==> disk == RolledBack(old(disk), [p])
      ensures Smooth() && made ==> ok
      ensures made && p.file.path in sure ==> ok
      ensures forall path :: path != p.file.path ==> Same(disk, old(disk), path)
      ensures Same(disk, old(disk), p.file.path) || AsRead(disk, p)
      ensures ok ==> AsRead(disk, p)
      ensures trace == old(trace) + [disk]
    {
      assert [p][..0] == [] && [p][0] == p;
      if p.existed {
        ok := Tee(p.file.path, p.prev);
      } else {
        ok := Remove(p.file.path);
      }
    }

    /** rollback: every pushed file back to what was read there; an error does not stop it. */
    method Rollback(pushes: seq<Push>) returns (ok: bool)
      modifies this`disk, this`trace
      ensures ok ==> disk == RolledBack(old(disk), pushes)
      ensures Smooth() && (made || pushes == []) ==> ok
      // Whatever failed before it, a file that can be put back is.
      ensures (made || pushes == []) && Distinct(FilesOf(pushes)) ==> Restored(pushes)
      ensures forall path :: !Touches(FilesOf(pushes), path) ==> Same(disk, old(disk), path)
      ensures |trace| >= |old(trace)| && trace[..|old(trace)|] == old(trace)
      ensures forall i :: |old(trace)| <= i < |trace| ==>
                forall path :: !Touches(FilesOf(pushes), path) ==> Same(trace[i], old(disk), path)
      ensures forall i :: 0 <= i < |pushes| && Distinct(FilesOf(pushes)) ==>
                Same(disk, old(disk), pushes[i].file.path) || AsRead(disk, pushes[i])
    {
      hide AsRead;
      ok := true;
      NoneBack(disk, pushes[..0]);
      for n := 0 to |pushes|
        invariant ok ==> disk == RolledBack(old(disk), pushes[..n])
        invariant Smooth() && made ==> ok
        invariant pushes == [] ==> ok
        invariant forall path :: !Touches(FilesOf(pushes), path) ==> Same(disk, old(disk), path)
        invariant |trace| >= |old(trace)| && trace[..|old(trace)|] == old(trace)
        invariant forall i :: |old(trace)| <= i < |trace| ==>
                    forall path :: !Touches(FilesOf(pushes), path) ==> Same(trace[i], old(disk), path)
        invariant Distinct(FilesOf(pushes)) ==> Undone(old(disk), pushes, n)
      {
        ghost var before := disk;
        assert FilesOf(pushes)[n] == pushes[n].file;
        assert Touches(FilesOf(pushes), pushes[n].file.path);
        var done := PutBack(pushes[n]);
        OneMoreBack(old(disk), before, pushes, n);
        if Distinct(FilesOf(pushes)) {
          forall i | 0 <= i < |pushes| && i != n ensures pushes[i].file.path != pushes[n].file.path {
            assert FilesOf(pushes)[i].path != FilesOf(pushes)[n].path;
          }
          SameReads(before, disk);
        }
        ok := ok && done;
      }
      assert pushes[..|pushes|] == pushes;
    }

    /** The first `n` files are as read if they can be, every one as read or as it was. */
    ghost predicate Undone(before: Files, pushes: seq<Push>, n: int)
      reads this`disk, this`made
    {
      forall i :: 0 <= i < |pushes| ==>
        && (made && i < n && pushes[i].file.path in sure ==> AsRead(disk, pushes[i]))
        && (Same(disk, before, pushes[i].file.path) || (i < n && AsRead(disk, pushes[i])))
    }

    lemma NoneBack(d: Files, pushes: seq<Push>)
      requires pushes == []
      ensures RolledBack(d, pushes) == d
    {
    }

    lemma SameReads(before: Files, now: Files)
      ensures forall p: Push :: Same(now, before, p.file.path) && AsRead(before, p) ==> AsRead(now, p)
    {
    }

    lemma OneMoreBack(before: Files, d: Files, pushes: seq<Push>, n: nat)
      requires n < |pushes|
      ensures d == RolledBack(before, pushes[..n]) ==> RolledBack(d, [pushes[n]]) == RolledBack(before, pushes[..n + 1])
    {
      assert pushes[..n + 1][..n] == pushes[..n];
      assert [pushes[n]][..0] == [];
    }

    /** A disk squid may find itself started on: the old config, or the new one after it
        was validated against the very files it now stands beside. */
    ghost predicate SafeStep(before: Files, d: Files)
    {
      Same(d, before, CONF_PATH) || (Parsed(d) && d[CONF_PATH] == conf)
    }

    ghost predicate SafeSince(before: Files, was: seq<Files>, now: seq<Files>)
    {
      && |now| >= |was| && now[..|was|] == was
      && forall i :: |was| <= i < |now| ==> SafeStep(before, now[i])
    }

    /** What a sync that stopped partway may leave at a path: what was there, what was
        desired, or what was read there before the push. */
    ghost predicate Partway(before: Files, d: Files, pushes: seq<Push>)
    {
      forall path :: path != CANDIDATE_PATH ==>
        || Same(d, before, path)
        || (path == CONF_PATH && SafeStep(before, d))
        || exists i :: 0 <= i < |pushes| && pushes[i].file.path == path && (Holds(d, pushes[i].file) || AsRead(d, pushes[i]))
    }

    /** Away from the pushed files, nothing but a leftover candidate. */
    ghost predicate Spared(before: Files, d: Files, pushes: seq<Push>)
    {
      forall path :: path != CANDIDATE_PATH && !Touches(FilesOf(pushes), path) ==> Same(d, before, path)
    }

    /** A candidate squid refused: removed, and then everything pushed is put back. */
    method Discard(pushes: seq<Push>) returns (err: bool)
      requires Distinct(FilesOf(pushes)) && AllOrdinary(FilesOf(pushes))
      modifies this`disk, this`trace
      ensures !err ==> disk == RolledBack(old(disk) - {CANDIDATE_PATH}, pushes)
      ensures Smooth() && (made || pushes == []) ==> !err
      ensures (made || pushes == []) && CANDIDATE_PATH in sure ==> Restored(pushes) && Spared(old(disk), disk, pushes)
      ensures CANDIDATE_PATH in stuck && CANDIDATE_PATH !in sure ==> err && disk == old(disk)
      ensures SafeSince(old(disk), old(trace), trace)
      ensures Partway(old(disk), disk, pushes)
    {
      hide RolledBack, Parsed, AllOrdinary, Distinct, Restored;
      FixedPathsDiffer();
      var ok := Remove(CANDIDATE_PATH);
      if !ok {
        return true;
      }
      assert disk == old(disk) - {CANDIDATE_PATH};
      NotTouched(pushes);
      ok := Rollback(pushes);
      RollbackPartway(old(disk), old(disk) - {CANDIDATE_PATH}, disk, pushes);
      return !ok;
    }

    lemma DiscardedToo(before: Files, validated: Files, d: Files, pushes: seq<Push>)
      requires validated == before[CANDIDATE_PATH := conf]
      ensures validated - {CANDIDATE_PATH} == before - {CANDIDATE_PATH}
      ensures Spared(validated, d, pushes) ==> Spared(before, d, pushes)
      ensures Partway(validated, d, pushes) ==> Partway(before, d, pushes)
    {
      FixedPathsDiffer();
      hide Parsed;
      forall path | path != CANDIDATE_PATH && Partway(validated, d, pushes) && !Same(d, before, path) && !(path == CONF_PATH && SafeStep(before, d))
        ensures exists i :: 0 <= i < |pushes| && pushes[i].file.path == path && (Holds(d, pushes[i].file) || AsRead(d, pushes[i]))
      {
        assert Same(validated, before, path);
        assert !Same(d, validated, path);
      }
    }

    /** The branch for a changed config: validate the candidate, then move it into place. */
    method Activate(pushes: seq<Push>) returns (result: SyncResult, err: bool)
      requires Distinct(FilesOf(pushes)) && AllOrdinary(FilesOf(pushes))
      modifies this`disk, this`trace, this`loaded
      ensures !err ==> result != Unchanged
      ensures !err && result == Applied ==>
                disk == (old(disk) - {CANDIDATE_PATH})[CONF_PATH := conf] && Parsed(disk) && loaded == disk
      ensures !err && result == Rejected ==> disk == RolledBack(old(disk) - {CANDIDATE_PATH}, pushes)
      ensures result != Applied || reloads == Some(false) ==> loaded == old(loaded)
      ensures steady ==> result == (if parses(conf, Support(old(disk))) then Applied else Rejected)
      ensures steady && result == Applied ==>
                disk == (old(disk) - {CANDIDATE_PATH})[CONF_PATH := conf] && (reloads.Some? ==> err == !reloads.value)
      ensures Smooth() && (made || pushes == []) && result == Rejected ==> !err
      // A rejection rolls back what it can, unless the candidate cannot be removed.
      ensures result == Rejected && (made || pushes == []) && CANDIDATE_PATH in sure ==> Restored(pushes) && Spared(old(disk), disk, pushes)
      ensures result == Rejected && CANDIDATE_PATH in stuck && CANDIDATE_PATH !in sure ==> err && disk == old(disk)[CANDIDATE_PATH := conf]
      ensures SafeSince(old(disk), old(trace), trace)
      ensures Partway(old(disk), disk, pushes)
    {
      hide RolledBack, Parsed, AllOrdinary, Distinct, Restored;
      FixedPathsDiffer();
      assert Reachable(CANDIDATE_PATH);
      var ok := Tee(CANDIDATE_PATH, conf);
      if !ok {
        return Unchanged, true;
      }
      ok := Parse(CANDIDATE_PATH);
      ghost var validated := disk;
      assert steady ==> Support(validated) == Support(old(disk)) && validated[CANDIDATE_PATH] == conf;
      if !ok {
        var failed := Discard(pushes);
        DiscardedToo(old(disk), validated, disk, pushes);
        return Rejected, failed;
      }
      ok := Move(CANDIDATE_PATH, CONF_PATH);
      MovedIsParsed(validated);
      if !ok {
        return Applied, true;
      }
      assert disk == (old(disk) - {CANDIDATE_PATH})[CONF_PATH := conf];
      ok := Reload();
      return Applied, !ok;
    }

    lemma NotTouched(pushes: seq<Push>)
      requires AllOrdinary(FilesOf(pushes))
      ensures !Touches(FilesOf(pushes), CONF_PATH) && !Touches(FilesOf(pushes), CANDIDATE_PATH)
    {
    }

    lemma MovedIsParsed(d: Files)
      requires CANDIDATE_PATH in d && d[CANDIDATE_PATH] == conf && parses(conf, Support(d))
      ensures Parsed((d - {CANDIDATE_PATH})[CONF_PATH := conf])
    {
      assert Support((d - {CANDIDATE_PATH})[CONF_PATH := conf]) == Support(d);
    }

    lemma RollbackPartway(before: Files, start: Files, d: Files, pushes: seq<Push>)
      requires forall path :: path != CANDIDATE_PATH ==> Same(start, before, path)
      requires Distinct(FilesOf(pushes))
      requires forall path :: !Touches(FilesOf(pushes), path) ==> Same(d, start, path)
      requires forall i :: 0 <= i < |pushes| && Distinct(FilesOf(pushes)) ==>
                 Same(d, start, pushes[i].file.path) || AsRead(d, pushes[i])
      ensures Partway(before, d, pushes)
    {
      forall path | path != CANDIDATE_PATH && !Same(d, before, path)
        ensures exists i :: 0 <= i < |pushes| && pushes[i].file.path == path && (Holds(d, pushes[i].file) || AsRead(d, pushes[i]))
      {
        assert Same(start, before, path);
        assert !Touches(FilesOf(pushes), path) ==> Same(d, start, path);
        var i :| 0 <= i < |pushes| && FilesOf(pushes)[i].path == path;
        assert pushes[i].file.path == path;
      }
    }

    /** The branch for supporting files only: validate the live config against them. */
    method Revalidate(pushes: seq<Push>) returns (result: SyncResult, err: bool)
      requires Distinct(FilesOf(pushes)) && AllOrdinary(FilesOf(pushes))
      modifies this`disk, this`trace, this`loaded
      ensures result == Applied ==> disk == old(disk) && Parsed(disk) && (!err ==> loaded == disk)
      ensures !err && result == Rejected ==> disk == RolledBack(old(disk), pushes)
      ensures result != Applied || reloads == Some(false) ==> loaded == old(loaded)
      ensures result != Unchanged
      ensures steady && CONF_PATH in old(disk) ==> result == (if Parsed(old(disk)) then Applied else Rejected)
      ensures steady && result == Applied ==> reloads.Some? ==> err == !reloads.value
      ensures Smooth() && (made || pushes == []) && result == Rejected ==> !err
      ensures result == Rejected && (made || pushes == []) ==> Restored(pushes)
      ensures result == Rejected ==> Spared(old(disk), disk, pushes)
      ensures SafeSince(old(disk), old(trace), trace)
      ensures Partway(old(disk), disk, pushes)
    {
      hide RolledBack, Restored;
      var ok := Parse(CONF_PATH);
      if !ok {
        NotTouched(pushes);
        ok := Rollback(pushes);
        RollbackPartway(old(disk), old(disk), disk, pushes);
        return Rejected, !ok;
      }
      ok := Reload();
      return Applied, !ok;
    }

    lemma SparedTwice(before: Files, mid: Files, d: Files, pushes: seq<Push>)
      requires mid == Put(before, FilesOf(pushes)) && Distinct(FilesOf(pushes))
      ensures Spared(mid, d, pushes) ==> Spared(before, d, pushes)
    {
      hide Put;
      PutAt(before, FilesOf(pushes));
    }

    /** The push and what follows it. */
    method PushAndLoad(pushes: seq<Push>, changedConf: bool) returns (result: SyncResult, err: bool)
      requires Distinct(FilesOf(pushes)) && AllOrdinary(FilesOf(pushes))
      modifies this`disk, this`made, this`trace, this`loaded
      ensures !err ==> result != Unchanged
      ensures !err && result == Applied ==>
                && disk == (if changedConf then (Put(old(disk), FilesOf(pushes)) - {CANDIDATE_PATH})[CONF_PATH := conf]
                            else Put(old(disk), FilesOf(pushes)))
                && Parsed(disk) && loaded == disk
      ensures !err && result == Rejected ==>
                disk == RolledBack(Put(old(disk), FilesOf(pushes)) - (if changedConf then {CANDIDATE_PATH} else {}), pushes)
      ensures result != Applied || reloads == Some(false) ==> loaded == old(loaded)
      ensures steady && (changedConf || (CONF_PATH in old(disk) && old(disk)[CONF_PATH] == conf)) ==>
                && result == (if parses(conf, Support(Put(old(disk), FilesOf(pushes)))) then Applied else Rejected)
                && (result == Rejected && stuck == {} ==> !err)
                && (result == Applied ==> reloads.Some? ==> err == !reloads.value)
                && (result == Applied ==>
                      disk == (if changedConf then (Put(old(disk), FilesOf(pushes)) - {CANDIDATE_PATH})[CONF_PATH := conf]
                               else Put(old(disk), FilesOf(pushes))))
      ensures result == Rejected && (changedConf ==> CANDIDATE_PATH in sure) ==> Restored(pushes) && Spared(old(disk), disk, pushes)
      ensures result == Rejected && changedConf && CANDIDATE_PATH in stuck && CANDIDATE_PATH !in sure ==>
                err && disk == Put(old(disk), FilesOf(pushes))[CANDIDATE_PATH := conf]
      ensures SafeSince(old(disk), old(trace), trace)
      ensures Partway(old(disk), disk, pushes)
    {
      hide Put, RolledBack, Ordinary;
      if pushes != [] {
        var ok := MakeDir();
        if !ok {
          return Unchanged, true;
        }
        ok := PushAll(pushes);
        PushedSteps(old(disk), pushes);
        if !ok {
          return Unchanged, true;
        }
      }
      ghost var pushed, steps := disk, trace;
      assert FilesOf([]) == [];
      PushedSteps(old(disk), pushes);
      assert pushed == Put(old(disk), FilesOf(pushes)) by { assert Put(old(disk), []) == old(disk) by { PutNothing(old(disk)); } }
      PushingSparesConfig(old(disk), FilesOf(pushes));
      if changedConf {
        result, err := Activate(pushes);
      } else {
        result, err := Revalidate(pushes);
        assert pushed - {} == pushed;
      }
      SparedTwice(old(disk), pushed, disk, pushes);
      LaterIsSafe(old(disk), pushed, old(trace), steps, trace);
      LaterPartway(old(disk), pushed, disk, pushes);
    }

    lemma PutNothing(d: Files)
      ensures Put(d, []) == d
    {
    }

    /** Pushing any number of the files is a safe step, and partway. */
    lemma PushedSteps(before: Files, pushes: seq<Push>)
      requires Distinct(FilesOf(pushes)) && AllOrdinary(FilesOf(pushes))
      ensures forall n :: 0 <= n <= |pushes| ==>
                var d := Put(before, FilesOf(pushes[..n])); SafeStep(before, d) && Partway(before, d, pushes)
    {
      hide Put, Ordinary;
      forall n | 0 <= n <= |pushes|
        ensures var d := Put(before, FilesOf(pushes[..n])); SafeStep(before, d) && Partway(before, d, pushes)
      {
        var files := FilesOf(pushes[..n]);
        assert files == FilesOf(pushes)[..n];
        PushingSparesConfig(before, files);
        PutAt(before, files);
        var d := Put(before, files);
        forall path | !Same(d, before, path)
          ensures exists i :: 0 <= i < |pushes| && pushes[i].file.path == path && Holds(d, pushes[i].file)
        {
          assert Touches(files, path);
          var i :| 0 <= i < |files| && files[i].path == path;
          assert files[i] == pushes[i].file;
        }
      }
    }

    lemma LaterIsSafe(before: Files, mid: Files, was: seq<Files>, steps: seq<Files>, now: seq<Files>)
      requires SafeSince(before, was, steps) && SafeSince(mid, steps, now)
      requires Same(mid, before, CONF_PATH)
      ensures SafeSince(before, was, now)
    {
      hide Parsed;
      assert now[..|was|] == now[..|steps|][..|was|];
      forall i | |was| <= i < |now| ensures SafeStep(before, now[i]) {
        if i < |steps| {
          assert now[i] == now[..|steps|][i];
        }
      }
    }

    lemma LaterPartway(before: Files, mid: Files, d: Files, pushes: seq<Push>)
      requires Partway(before, mid, pushes) && Partway(mid, d, pushes)
      requires Same(mid, before, CONF_PATH)
      ensures Partway(before, d, pushes)
    {
      hide Parsed;
      forall path | path != CANDIDATE_PATH && !Same(d, before, path)
        ensures (path == CONF_PATH && SafeStep(before, d)) ||
                exists i :: 0 <= i < |pushes| && pushes[i].file.path == path && (Holds(d, pushes[i].file) || AsRead(d, pushes[i]))
      {
        if Same(d, mid, path) {
          assert !Same(mid, before, path);
          var i :| 0 <= i < |pushes| && pushes[i].file.path == path && (Holds(mid, pushes[i].file) || AsRead(mid, pushes[i]));
          assert Holds(d, pushes[i].file) || AsRead(d, pushes[i]);
        }
      }
    }

    /** What an honest sync may leave behind when it fails: at every path what was there or
        what was desired, the config as SafeStep says. */
    ghost predicate LeftBy(before: Files, d: Files, desired: seq<File>)
    {
      forall path :: path != CANDIDATE_PATH ==>
        || Same(d, before, path)
        || (path == CONF_PATH && SafeStep(before, d))
        || exists f <- desired :: f.path == path && Holds(d, f)
    }

    lemma PartwayHonestly(before: Files, d: Files, pushes: seq<Push>, desired: seq<File>)
      requires Partway(before, d, pushes) && IsDiff(before, true, pushes, desired)
      ensures LeftBy(before, d, desired)
    {
      hide SafeStep;
      forall path | path != CANDIDATE_PATH && !Same(d, before, path) && !(path == CONF_PATH && SafeStep(before, d))
        ensures exists f <- desired :: f.path == path && Holds(d, f)
      {
        var i :| 0 <= i < |pushes| && pushes[i].file.path == path && (Holds(d, pushes[i].file) || AsRead(d, pushes[i]));
        assert AsRead(before, pushes[i]) && pushes[i].file in desired;
        assert AsRead(d, pushes[i]) ==> Same(d, before, path);
      }
    }

    /** Everything a sync needs from the host is there. */
    ghost predicate Ready()
      reads this`template, this`lists, gen
    {
      template.Some? && Readable(gen.files) && forall n :: n in Held(gen.files) ==> n in lists
    }

    lemma RenderedIsNoSidecar(files: Dir)
      ensures !IsSidecar(RENDERED_FILE)
      ensures Readable(files[RENDERED_FILE := conf]) ==> Readable(files)
      ensures Readable(files) ==> Readable(files[RENDERED_FILE := conf]) && Held(files[RENDERED_FILE := conf]) == Held(files)
    {
      hide Atoi, TrimSpace, Held;
      assert RENDERED_FILE[|RENDERED_FILE| - 1] == 'f' && SUFFIX[|SUFFIX| - 1] == 't';
      if Readable(files) {
        OtherFile(files, RENDERED_FILE, conf);
      }
    }

    /** After the push: what each result means for the disk there was. */
    lemma Concluded(before: Files, pushes: seq<Push>, desired: seq<File>, truthful: bool, changed: bool)
      requires Distinct(desired) && IsDiff(before, truthful, pushes, desired) && AllOrdinary(FilesOf(pushes))
      requires !changed ==> CONF_PATH in before && before[CONF_PATH] == conf
      ensures UpToCandidate(if changed then (Put(before, FilesOf(pushes)) - {CANDIDATE_PATH})[CONF_PATH := conf]
                            else Put(before, FilesOf(pushes)),
                            Put(before, desired)[CONF_PATH := conf])
      ensures truthful ==> UpToCandidate(RolledBack(Put(before, FilesOf(pushes)) - (if changed then {CANDIDATE_PATH} else {}), pushes), before)
    {
      hide Put, RolledBack, Ordinary;
      var put := Put(before, FilesOf(pushes));
      PushingIsPutting(before, truthful, pushes, desired);
      PushingSparesConfig(before, FilesOf(pushes));
      FixedPathsDiffer();
      assert (put - {CANDIDATE_PATH})[CONF_PATH := conf] == put[CONF_PATH := conf] - {CANDIDATE_PATH};
      assert put - {} == put;
      if truthful {
        RollingBackUndoes(before, pushes, desired, put - (if changed then {CANDIDATE_PATH} else {}));
      }
    }

    /** What an honest diff finds really is out of place. */
    lemma SomethingToPush(d: Files, pushes: seq<Push>, desired: seq<File>)
      requires IsDiff(d, true, pushes, desired) && pushes != []
      ensures !InPlace(d, desired, conf)
    {
      assert pushes[0].file in desired;
      var j :| 0 <= j < |desired| && desired[j] == pushes[0].file;
      assert !Holds(d, desired[j]);
    }

    /** The host half of a sync: the config rendered, the desired files gathered. */
    method Desire() returns (desired: Option<seq<File>>)
      modifies this`lists, gen
      ensures OnlySeeded(old(lists), lists)
      ensures forall n :: n in lists && n !in old(lists) ==> Readable(old(gen.files)) && n in Held(old(gen.files))
      ensures gen.files == old(gen.files) || gen.files == old(gen.files)[RENDERED_FILE := conf]
      ensures desired.Some? ==> gen.files == old(gen.files)[RENDERED_FILE := conf] && Ready() && desired.value == Wanted()
      ensures desired.Some? ==> Distinct(desired.value) && (forall f <- desired.value :: Ordinary(f.path))
      ensures desired.Some? && old(Ready()) ==> Wanted() == old(Wanted())
      ensures steady && gen.steady && old(Sound()) ==> desired.Some?
    {
      hide OnlySeeded, Desired, Held, Readable, Distinct, Ordinary, RENDERED_FILE, Seedable;
      assert OnlySeeded(old(lists), lists) by { SeededNothing(lists); }
      if template.None? {
        return None;
      }
      var rendered: bool := *;
      if !rendered && !steady {
        return None;
      }
      gen.files := gen.files[RENDERED_FILE := conf];
      RenderedIsNoSidecar(old(gen.files));
      var ports := PortAllocations(gen.files, gen.steady);
      if ports.Err? {
        return None;
      }
      desired := Gather(ports.value);
      if desired.Some? {
        DesiredIsDistinct(template.value, ports.value, lists);
        if old(Ready()) {
          NothingNewSeeded(old(lists), lists, ports.value);
        }
      }
    }

    /** What a sync does when no call but a reload fails: decided by the disk and by squid's
        parser alone. */
    ghost predicate Decided(before: Files, desired: seq<File>, d: Files, result: SyncResult, err: bool)
    {
      var target := Put(before, desired)[CONF_PATH := conf];
      if InPlace(before, desired, conf) then !err && result == Unchanged
      else if parses(conf, Support(target)) then
        result == Applied && UpToCandidate(d, target) && (reloads.Some? ==> err == !reloads.value)
      else result == Rejected && (stuck == {} ==> !err)
    }

    /** The VM half: the difference pushed, validated, loaded. */
    method Converge(desired: seq<File>) returns (result: SyncResult, err: bool)
      requires conf != "" && Distinct(desired) && forall f <- desired :: Ordinary(f.path)
      modifies this`honest, this`disk, this`made, this`trace, this`loaded
      ensures honest ==> old(honest)
      ensures !err && result == Unchanged ==> disk == old(disk) && trace == old(trace) && InPlace(disk, desired, conf)
      ensures !err && result == Applied ==>
                UpToCandidate(disk, Put(old(disk), desired)[CONF_PATH := conf]) && Parsed(disk) && loaded == disk
      ensures !err && result == Rejected && honest ==> UpToCandidate(disk, old(disk))
      ensures honest && InPlace(old(disk), desired, conf) ==>
                disk == old(disk) && trace == old(trace) && !err && result == Unchanged
      ensures result != Applied || reloads == Some(false) ==> loaded == old(loaded)
      ensures steady && old(honest) ==> honest && Decided(old(disk), desired, disk, result, err)
      ensures SafeSince(old(disk), old(trace), trace)
      ensures honest ==> LeftBy(old(disk), disk, desired)
      ensures result == Rejected && honest && (CANDIDATE_PATH in sure || ConfText(old(disk)) == conf) ==> Returned(old(disk), disk, desired)
      ensures result == Rejected && honest && CANDIDATE_PATH in stuck && CANDIDATE_PATH !in sure && ConfText(old(disk)) != conf ==>
                err && disk == Put(old(disk), desired)[CANDIDATE_PATH := conf]
    {
      hide Put, RolledBack, Parsed, SafeStep, UpToCandidate, Partway, LeftBy, IsDiff, Distinct, AllOrdinary, Ordinary, InPlace,
           Decided, Restored, Spared, Returned;
      var pushes := Diff(desired);
      ghost var wasHonest := honest;
      DiffIsOrdinary(disk, honest, pushes, desired);
      var live, there := Cat(CONF_PATH);
      DiffWeaker(disk, wasHonest, honest, pushes, desired);
      if honest && InPlace(old(disk), desired, conf) {
        if pushes != [] {
          SomethingToPush(disk, pushes, desired);
        }
        LiveConf(disk, desired);
      }
      if live == conf && pushes == [] {
        NothingPushed(disk, honest, desired);
        LeftAlone(disk, desired);
        if steady && old(honest) {
          AlreadyDecided(disk, desired);
        }
        return Unchanged, false;
      }
      ghost var d := disk;
      if honest {
        NotInPlace(disk, pushes, desired, live != conf);
      }
      result, err := PushAndLoad(pushes, live != conf);
      Concluded(d, pushes, desired, honest, live != conf);
      if honest {
        PushingIsPutting(d, honest, pushes, desired);
        if result == Rejected && (live != conf ==> CANDIDATE_PATH in sure) {
          ReturnedOnce(d, pushes, desired);
        }
        PartwayHonestly(d, disk, pushes, desired);
        if steady {
          PushDecided(d, pushes, desired, live != conf, disk, result, err);
        }
      }
    }

    /** Every file that can be put back is as it was, and so is every file that is none of the
        sync's. */
    ghost predicate Returned(before: Files, d: Files, desired: seq<File>)
    {
      forall path :: path != CANDIDATE_PATH && (path in sure || forall f <- desired :: f.path != path) ==> Same(d, before, path)
    }

    lemma ReturnedOnce(before: Files, pushes: seq<Push>, desired: seq<File>)
      requires IsDiff(before, true, pushes, desired) && Restored(pushes) && Spared(before, disk, pushes)
      ensures Returned(before, disk, desired)
    {
      forall path | path != CANDIDATE_PATH && (path in sure || forall f <- desired :: f.path != path) ensures Same(disk, before, path) {
        if Touches(FilesOf(pushes), path) {
          var i :| 0 <= i < |FilesOf(pushes)| && FilesOf(pushes)[i].path == path;
          assert pushes[i].file in desired && AsRead(before, pushes[i]) && AsRead(disk, pushes[i]);
        }
      }
    }

    lemma LeftAlone(d: Files, desired: seq<File>)
      ensures LeftBy(d, d, desired)
    {
    }

    lemma AlreadyDecided(d: Files, desired: seq<File>)
      requires InPlace(d, desired, conf)
      ensures Decided(d, desired, d, Unchanged, false)
    {
    }

    /** When there is something to push, or another config, the disk is not as desired. */
    lemma NotInPlace(d: Files, pushes: seq<Push>, desired: seq<File>, changed: bool)
      requires IsDiff(d, true, pushes, desired) && (pushes != [] || changed)
      requires changed ==> ConfText(d) != conf
      ensures !InPlace(d, desired, conf)
    {
      if pushes != [] {
        SomethingToPush(d, pushes, desired);
      }
    }

    lemma PushDecided(before: Files, pushes: seq<Push>, desired: seq<File>, changed: bool, d: Files, result: SyncResult, err: bool)
      requires Distinct(desired) && IsDiff(before, true, pushes, desired) && !InPlace(before, desired, conf)
      requires result == (if parses(conf, Support(Put(before, FilesOf(pushes)))) then Applied else Rejected)
      requires result == Rejected && stuck == {} ==> !err
      requires result == Applied ==> reloads.Some? ==> err == !reloads.value
      requires result == Applied ==> UpToCandidate(d, Put(before, desired)[CONF_PATH := conf])
      ensures Decided(before, desired, d, result, err)
    {
      hide Put, IsDiff, Distinct, InPlace, UpToCandidate;
      PushingIsPutting(before, true, pushes, desired);
      assert Support(Put(before, desired)[CONF_PATH := conf]) == Support(Put(before, desired));
    }

    /** Sync. A rejection is a result, not an error. */
    method Sync() returns (result: SyncResult, err: bool)
      requires conf != ""
      modifies this`lists, this`honest, this`disk, this`made, this`trace, this`loaded, gen
      // The host half: nothing but missing lists is written, each from the template.
      ensures OnlySeeded(old(lists), lists)
      ensures forall n :: n in lists && n !in old(lists) ==> Readable(old(gen.files)) && n in Held(old(gen.files))
      ensures gen.files == old(gen.files) || gen.files == old(gen.files)[RENDERED_FILE := conf]
      ensures !err ==> Ready() && gen.files == old(gen.files)[RENDERED_FILE := conf]
      ensures honest ==> old(honest)
      // A transaction on disk.
      ensures !err && result == Unchanged ==>
                disk == old(disk) && trace == old(trace) && InPlace(disk, Wanted(), conf)
      ensures !err && result == Applied ==>
                UpToCandidate(disk, Put(old(disk), Wanted())[CONF_PATH := conf]) && Parsed(disk) && loaded == disk
      ensures !err && result == Rejected && honest ==> UpToCandidate(disk, old(disk))
      // A disk that is already right is left alone.
      ensures honest && old(Ready()) && InPlace(old(disk), old(Wanted()), conf) ==>
                disk == old(disk) && trace == old(trace) && (!err ==> result == Unchanged)
      // The live config: still parsed afterwards, safe at every step, and an error's leftovers.
      ensures !err && honest && Parsed(old(disk)) ==> Parsed(disk)
      ensures SafeSince(old(disk), old(trace), trace)
      ensures honest && disk != old(disk) ==> Ready() && LeftBy(old(disk), disk, Wanted())
      // A rejection that fails on the way still puts back every file it can, unless it fails at
      // removing a refused candidate.
      ensures result == Rejected && honest ==> Ready()
      ensures result == Rejected && honest && (CANDIDATE_PATH in sure || ConfText(old(disk)) == conf) ==>
                Returned(old(disk), disk, Wanted())
      ensures result == Rejected && honest && CANDIDATE_PATH in stuck && CANDIDATE_PATH !in sure && ConfText(old(disk)) != conf ==>
                err && disk == Put(old(disk), Wanted())[CANDIDATE_PATH := conf]
      // What squid runs on: only a reload changes it, and a sync without error leaves it the
      // disk exactly when it reloaded or squid was there before.
      ensures result != Applied || reloads == Some(false) ==> loaded == old(loaded)
      ensures !err && (result == Rejected ==> honest) ==> (Live() <==> result == Applied || old(Live()))
      // Nothing else decides the outcome when nothing but a reload fails.
      ensures steady && gen.steady && old(Sound()) && old(honest) ==>
                honest && Ready() && Decided(old(disk), Wanted(), disk, result, err)
    {
      hide Put, Parsed, OnlySeeded, SafeStep, Desired, Held, Readable, UpToCandidate, LeftBy, Distinct, Ordinary, InPlace,
           RENDERED_FILE, Seedable, Decided, Support, Same, Returned, ConfText;
      var desired := Desire();
      if desired.None? {
        return Unchanged, true;
      }
      result, err := Converge(desired.value);
      if !err && result == Rejected && honest {
        CandidateIsIrrelevant(old(disk), disk);
      }
      LiveOnlyByReload(old(loaded), old(disk));
    }

    /** Whether squid runs on what is on the disk, before and after. */
    lemma LiveOnlyByReload(was: Files, before: Files)
      ensures loaded == disk ==> Live()
      ensures loaded == was && disk == before ==> (Live() <==> Support(was) == Support(before) && Same(was, before, CONF_PATH))
      ensures loaded == was && UpToCandidate(disk, before) ==>
                (Live() <==> Support(was) == Support(before) && Same(was, before, CONF_PATH))
    {
      FixedPathsDiffer();
      if UpToCandidate(disk, before) {
        assert Support(disk) == Support(before);
      }
    }

    /** A leftover candidate is nothing squid looks at. */
    lemma CandidateIsIrrelevant(before: Files, d: Files)
      requires UpToCandidate(d, before)
      ensures Parsed(before) ==> Parsed(d)
    {
      FixedPathsDiffer();
      assert Support(d) == Support(before);
    }

    /** A disk as desired holds each VM's own list, as the host has it. */
    lemma ListServed(name: string)
      requires Ready() && InPlace(disk, Wanted(), conf) && name in Held(gen.files)
      ensures name in lists && Holds(disk, File(VMListPath(name), lists[name]))
    {
      hide InPlace, Held, Readable, Desired, Holds;
      ListInPlace(disk, template.value, Held(gen.files), lists, conf, name);
    }

    lemma SeededNothing(same: map<string, string>)
      ensures OnlySeeded(same, same)
    {
    }

    lemma NothingNewSeeded(before: map<string, string>, after: map<string, string>, ports: map<string, int>)
      requires OnlySeeded(before, after)
      requires forall n :: n in after && n !in before ==> n in ports
      requires forall n :: n in ports ==> n in before
      ensures after == before
    {
    }

    lemma LiveConf(d: Files, desired: seq<File>)
      requires InPlace(d, desired, conf) && conf != ""
      ensures CONF_PATH in d && d[CONF_PATH] == conf
    {
    }

    lemma DiffWeaker(d: Files, was: bool, now: bool, pushes: seq<Push>, desired: seq<File>)
      requires IsDiff(d, was, pushes, desired) && (now ==> was)
      ensures IsDiff(d, now, pushes, desired)
    {
    }

    lemma NothingPushed(d: Files, truthful: bool, desired: seq<File>)
      requires IsDiff(d, truthful, [], desired) && CONF_PATH in d && d[CONF_PATH] == conf
      ensures InPlace(d, desired, conf)
    {
      forall i | 0 <= i < |desired| ensures Holds(d, desired[i]) {
        assert desired[i] in desired;
      }
    }
  }

  lemma AppliedIsInPlace(before: Files, d: Files, desired: seq<File>, conf: string)
    requires Distinct(desired) && AllOrdinary(desired)
    requires UpToCandidate(d, Put(before, desired)[CONF_PATH := conf])
    ensures InPlace(d, desired, conf)
  {
    hide Put;
    PutAt(before, desired);
    FixedPathsDiffer();
    forall i | 0 <= i < |desired| ensures Holds(d, desired[i]) {
      assert Ordinary(desired[i].path) && Holds(Put(before, desired), desired[i]);
    }
  }

  /** Convergence: whatever the disk was before, a first sync that completes unrejected
      leaves it as desired, and, when reads can be trusted, a second one right after finds
      nothing to do and writes nothing. */
  method SyncTwice(p: Proxy) returns (first: SyncResult, err1: bool, ghost between: Files, second: SyncResult, err2: bool)
    requires p.conf != ""
    modifies p, p.gen
    ensures !err1 && first != Rejected ==> p.Ready() && InPlace(between, p.Wanted(), p.conf)
    ensures !err1 && first != Rejected && p.honest ==> p.disk == between && (!err2 ==> second == Unchanged)
  {
    hide Put, Proxy.Parsed, Desired, Held, Readable, UpToCandidate, InPlace, Distinct, AllOrdinary, Ordinary,
         Proxy.SafeSince, Proxy.LeftBy, RENDERED_FILE, Proxy.OnlySeeded, Proxy.Live, Proxy.Sound, Proxy.Decided;
    first, err1 := p.Sync();
    between := p.disk;
    ghost var lists, files := p.lists, p.gen.files;
    if !err1 {
      DesiredIsDistinct(p.template.value, Held(p.gen.files), p.lists);
      if first == Applied {
        InPlaceOnceApplied(old(p.disk), between, p.Wanted(), p.conf);
      }
    }
    second, err2 := p.Sync();
    if !err1 && first != Rejected {
      p.RenderedIsNoSidecar(files);
      p.NothingNewSeeded(lists, p.lists, Held(files));
    }
  }

  /** The reload that failed: the files are pushed, the parse passes and squid keeps what it
      has. The next sync compares the disk only, finds it as desired, and leaves squid where
      it is. */
  method FailedReloadGoesUnnoticed(p: Proxy) returns (first: SyncResult, err1: bool, second: SyncResult, err2: bool)
    requires p.conf != "" && p.steady && p.gen.steady && p.reloads == Some(false)
    requires p.Sound() && p.Ready() && p.honest && p.Live()
    requires !InPlace(p.disk, p.Wanted(), p.conf)
    requires forall f :: p.parses(p.conf, f)
    modifies p, p.gen
    ensures first == Applied && err1
    ensures second == Unchanged && !err2
    ensures p.Ready() && InPlace(p.disk, p.Wanted(), p.conf)
    ensures p.loaded == old(p.loaded) && !p.Live()
    ensures p.template == old(p.template) && p.lists == old(p.lists) && Held(p.gen.files) == Held(old(p.gen.files))
  {
    hide Put, Proxy.Parsed, Desired, Held, Readable, UpToCandidate, InPlace, Distinct, AllOrdinary, Ordinary,
         Proxy.SafeSince, Proxy.LeftBy, RENDERED_FILE, Proxy.OnlySeeded, Support;
    ghost var before, desired, lists, files := p.disk, p.Wanted(), p.lists, p.gen.files;
    p.RenderedIsNoSidecar(files);
    first, err1 := p.Sync();
    p.NothingNewSeeded(lists, p.lists, Held(files));
    assert p.Wanted() == desired;
    DesiredIsDistinct(p.template.value, Held(p.gen.files), p.lists);
    InPlaceOnceApplied(before, p.disk, desired, p.conf);
    if Support(before) == Support(p.disk) && Same(before, p.disk, CONF_PATH) {
      StaysInPlace(before, p.disk, desired, p.conf);
    }
    ghost var between := p.gen.files;
    p.RenderedIsNoSidecar(between);
    second, err2 := p.Sync();
    p.NothingNewSeeded(lists, p.lists, Held(between));
  }

  /** The rollback that is not run: squid refuses a new config beside the pushed files, the
      candidate cannot be removed, and the sync ends there, with the files squid refused left
      beside the old config. */
  method RefusedFilesStay(p: Proxy) returns (result: SyncResult, err: bool)
    requires p.conf != "" && p.steady && p.gen.steady && CANDIDATE_PATH in p.stuck && CANDIDATE_PATH !in p.sure
    requires p.Sound() && p.Ready() && p.honest && ConfText(p.disk) != p.conf
    requires !p.parses(p.conf, Support(Put(p.disk, p.Wanted())))
    modifies p, p.gen
    ensures result == Rejected && err
    ensures p.Ready() && (forall f <- p.Wanted() :: Holds(p.disk, f)) && Same(p.disk, old(p.disk), CONF_PATH)
  {
    hide Put, Proxy.Parsed, Desired, Held, Readable, UpToCandidate, Distinct, AllOrdinary,
         Proxy.SafeSince, Proxy.LeftBy, RENDERED_FILE, Proxy.OnlySeeded, Support, Proxy.Returned, Proxy.Seedable;
    ghost var before, desired, lists, files := p.disk, p.Wanted(), p.lists, p.gen.files;
    p.RenderedIsNoSidecar(files);
    result, err := p.Sync();
    p.NothingNewSeeded(lists, p.lists, Held(files));
    assert p.Wanted() == desired;
    DesiredIsDistinct(p.template.value, Held(p.gen.files), p.lists);
    PutAt(before, desired);
    FixedPathsDiffer();
    SupportIgnoresConf(Put(before, desired), p.conf);
    forall f | f in desired ensures Holds(p.disk, f) {
      var i :| 0 <= i < |desired| && desired[i] == f;
      assert Holds(Put(before, desired), desired[i]) && Ordinary(f.path);
    }
    PushingSparesConfig(before, desired);
  }

  lemma SupportIgnoresConf(d: Files, conf: string)
    ensures Support(d[CONF_PATH := conf]) == Support(d)
  {
  }

  /** A disk in place is in place for whatever squid could have loaded it as. */
  lemma StaysInPlace(a: Files, b: Files, desired: seq<File>, conf: string)
    requires forall f <- desired :: Ordinary(f.path)
    requires InPlace(b, desired, conf) && Support(a) == Support(b) && Same(a, b, CONF_PATH)
    ensures InPlace(a, desired, conf)
  {
    forall i | 0 <= i < |desired| ensures Holds(a, desired[i]) {
      assert desired[i] in desired && Holds(b, desired[i]);
      assert desired[i].path in Support(b) && Support(b)[desired[i].path] == desired[i].content;
    }
  }

  /** A disk with everything in place holds the access rules of the ledger. */
  lemma AccessInPlace(disk: Files, template: string, ports: map<string, int>, lists: map<string, string>, conf: string)
    requires forall n :: n in ports ==> n in lists
    requires InPlace(disk, Desired(template, ports, lists), conf)
    ensures Holds(disk, File(VM_ACCESS_PATH, Unlines(AccessLines(ports))))
  {
    hide VMListPath, AccessLines, Unlines;
    var d := Desired(template, ports, lists);
    assert d[|d| - 1] == File(VM_ACCESS_PATH, Unlines(AccessLines(ports)));
    assert Holds(disk, d[|d| - 1]);
  }

  /** A disk with everything in place holds each VM's list. */
  lemma ListInPlace(disk: Files, template: string, ports: map<string, int>, lists: map<string, string>, conf: string, name: string)
    requires forall n :: n in ports ==> n in lists
    requires InPlace(disk, Desired(template, ports, lists), conf) && name in ports
    ensures Holds(disk, File(VMListPath(name), lists[name]))
  {
    hide VMListPath, AccessLines, Unlines;
    var names := Sorted(ports.Keys);
    assert name in names;
    var k :| 0 <= k < |names| && names[k] == name;
    var d := Desired(template, ports, lists);
    assert d[k + 1] == ListFiles(names, lists)[k] == File(VMListPath(name), lists[name]);
    assert Holds(disk, d[k + 1]);
  }

  lemma InPlaceOnceApplied(before: Files, d: Files, desired: seq<File>, conf: string)
    requires Distinct(desired) && forall f <- desired :: Ordinary(f.path)
    requires UpToCandidate(d, Put(before, desired)[CONF_PATH := conf])
    ensures InPlace(d, desired, conf)
  {
    hide Put, UpToCandidate, Distinct;
    AppliedIsInPlace(before, d, desired, conf);
  }
}
