/** `ptrbox allow`, internal/cli/allow.go: an edit that lands on the host and in the proxy
    VM, or on neither. */
module Allow {
  import opened Text
  import opened Allowlist
  import opened AllowlistLines
  import opened AllowlistIdempotence
  import opened AllowlistPaths
  import opened AllowlistReseeds
  import opened Domains
  import opened Ports
  import opened Squid
  import opened Sync

  datatype AllowOutcome =
    | Declined        // no such VM, and nobody asked for a list anyway
    | SeedFailed      // the list could not be read or seeded
    | BadDomain
    | EditorFailed
    | Unwritten
    | NothingNew
    | Saved           // the proxy is down; the edit waits on the host
    | SyncFailed
    | Refused         // squid rejected it; restored on both sides
    | RestoreFailed
    | Reloaded

  class AllowCommand {
    const proxy: Proxy
    /** <list>.rejected, by VM */
    var refused: map<string, string>

    constructor (proxy: Proxy)
      ensures this.proxy == proxy && refused == map[]
    {
      this.proxy, refused := proxy, map[];
    }

    /** The edit itself, onto the host's list: the domains appended, or the editor's text.
        None when there is nothing to apply. */
    method Edit(name: string, original: string, domains: seq<string>, edited: string, editorFailed: bool)
      returns (text: Option<string>, outcome: AllowOutcome)
      requires name in proxy.lists && proxy.lists[name] == original
      modifies proxy`lists
      ensures text.Some? ==> proxy.lists == old(proxy.lists)[name := text.value]
      ensures text.Some? && domains != [] ==>
                && text.value == AppendDomains(original, domains)
                && AllowEntries(text.value) == AllowEntries(original) + Fresh(AllowEntries(original), domains)
      ensures text.Some? && domains == [] ==> text.value == edited
      ensures text.None? ==> outcome in {BadDomain, EditorFailed, Unwritten, NothingNew}
      ensures text.None? && outcome != EditorFailed ==> proxy.lists == old(proxy.lists)
      ensures text.None? && outcome == EditorFailed ==> proxy.lists == old(proxy.lists)[name := edited]
      ensures domains != [] ==> outcome != EditorFailed
      ensures domains != [] ==> (text.None? && outcome == BadDomain <==> exists d <- domains :: !ValidDomain(d))
      ensures text.None? && outcome == NothingNew <==>
                if domains != [] then (forall d <- domains :: ValidDomain(d)) && Fresh(AllowEntries(original), domains) == []
                else !editorFailed && edited == original
      ensures text.None? && outcome == EditorFailed <==> domains == [] && editorFailed
      ensures proxy.steady ==> outcome != Unwritten
      ensures text.Some? ==> outcome == Saved
    {
      hide AllowEntries, Fresh, ValidDomain, AppendDomains;
      if domains != [] {
        var appended := Append(original, domains);
        if appended.None? {
          return None, BadDomain;
        }
        if !appended.value.1 {
          return None, NothingNew;
        }
        AppendedEntries(original, domains);
        var wrote: bool := *;
        if !wrote && !proxy.steady {
          return None, Unwritten;
        }
        proxy.lists := proxy.lists[name := appended.value.0];
        return Some(appended.value.0), Saved;
      }
      proxy.lists := proxy.lists[name := edited];
      if editorFailed {
        return None, EditorFailed;
      }
      if edited == original {
        return None, NothingNew;
      }
      return Some(edited), Saved;
    }

    /** No call fails, nothing was read wrong, and what the host holds is in order. */
    ghost predicate Dependable()
      reads proxy`honest, proxy`template, proxy`overlay, proxy.gen
    {
      proxy.Smooth() && proxy.gen.steady && proxy.reloads == Some(true) && proxy.honest && proxy.Sound()
    }

    /** The desired files for these lists. */
    ghost function WantedThen(template: Option<string>, files: Dir, lists: map<string, string>): seq<File>
    {
      if template.Some? && Readable(files) && (forall n :: n in Held(files) ==> n in lists)
      then Desired(template.value, Held(files), lists) else []
    }

    /** squid has nothing to say against these files: they are there already, or they parse. */
    ghost predicate Acceptable(disk: Files, desired: seq<File>)
    {
      InPlace(disk, desired, proxy.conf) || proxy.parses(proxy.conf, Support(Put(disk, desired)[CONF_PATH := proxy.conf]))
    }

    /** The host half of a refusal: the refused text kept beside the list, the list as it was. */
    method Restore(name: string, original: string) returns (outcome: AllowOutcome)
      requires name in proxy.lists
      modifies this, proxy`lists
      ensures outcome in {Refused, RestoreFailed} && (proxy.steady ==> outcome == Refused)
      ensures outcome == Refused ==>
                && proxy.lists == old(proxy.lists)[name := original]
                && refused == old(refused)[name := old(proxy.lists)[name]]
      // One that fails leaves the refused text where it was, or where it is kept.
      ensures outcome == RestoreFailed ==>
                || (proxy.lists == old(proxy.lists) && refused == old(refused))
                || (proxy.lists == old(proxy.lists) - {name} && refused == old(refused)[name := old(proxy.lists)[name]])
    {
      var renamed: bool := *;
      if !renamed && !proxy.steady {
        return RestoreFailed;
      }
      refused := refused[name := proxy.lists[name]];
      proxy.lists := proxy.lists - {name};
      var wrote: bool := *;
      if !wrote && !proxy.steady {
        return RestoreFailed;
      }
      proxy.lists := proxy.lists[name := original];
      return Refused;
    }

    /** The edit applied to the proxy VM, and taken back on both sides when squid refuses it. */
    method Apply(name: string, original: string, running: bool) returns (outcome: AllowOutcome)
      requires proxy.conf != "" && name in proxy.lists
      modifies this, proxy`lists, proxy`honest, proxy`disk, proxy`made, proxy`trace, proxy`loaded, proxy.gen
      ensures outcome in {Saved, SyncFailed, Refused, RestoreFailed, Reloaded}
      ensures outcome in {Saved, SyncFailed, Reloaded} ==> name in proxy.lists && proxy.lists[name] == old(proxy.lists)[name]
      ensures outcome == Saved <==> !running
      ensures !running ==> proxy.disk == old(proxy.disk) && proxy.lists == old(proxy.lists)
      ensures outcome == Refused ==>
                && name in proxy.lists && proxy.lists[name] == original
                && refused == old(refused)[name := old(proxy.lists)[name]]
                && (proxy.honest ==> UpToCandidate(proxy.disk, old(proxy.disk)))
      // A restore that fails leaves the refused text where it was, or where it is kept.
      ensures outcome == RestoreFailed ==>
                if name in proxy.lists then proxy.lists[name] == old(proxy.lists)[name] && refused == old(refused)
                else refused == old(refused)[name := old(proxy.lists)[name]]
      ensures outcome !in {Refused, RestoreFailed} ==> refused == old(refused)
      ensures outcome == Reloaded ==>
                && proxy.Settled()
                && (name in Held(proxy.gen.files) ==> Holds(proxy.disk, File(VMListPath(name), proxy.lists[name])))
      ensures outcome == Reloaded && old(proxy.Live()) ==>
                proxy.Live() && (name in Held(proxy.gen.files) ==> Holds(proxy.loaded, File(VMListPath(name), proxy.lists[name])))
      ensures forall n :: n != name && n in old(proxy.lists) ==> n in proxy.lists && proxy.lists[n] == old(proxy.lists)[n]
      ensures proxy.gen.files == old(proxy.gen.files) || proxy.gen.files == old(proxy.gen.files)[RENDERED_FILE := proxy.conf]
      // When nothing fails, squid decides.
      ensures old(Dependable()) && running ==> outcome in {Reloaded, Refused}
      ensures old(Dependable()) && running && (forall f :: proxy.parses(proxy.conf, f)) ==> outcome == Reloaded
      ensures old(Dependable()) && running && old(proxy.Ready()) ==>
                outcome == if Acceptable(old(proxy.disk), old(proxy.Wanted())) then Reloaded else Refused
    {
      hide Put, Proxy.Parsed, Desired, Held, Readable, UpToCandidate, InPlace, Distinct, AllOrdinary, Ordinary, Proxy.SeedOf,
           Proxy.SafeSince, Proxy.LeftBy, RENDERED_FILE, VMListPath, Proxy.Sound, Support, Proxy.Returned;
      if !running {
        return Saved;
      }
      ghost var files, lists := proxy.gen.files, proxy.lists;
      proxy.RenderedIsNoSidecar(files);
      var result, err := proxy.Sync();
      if old(proxy.Ready()) {
        proxy.NothingNewSeeded(lists, proxy.lists, Held(files));
      }
      if err {
        return SyncFailed;
      }
      if result == Rejected {
        outcome := Restore(name, original);
        return;
      }
      DesiredIsDistinct(proxy.template.value, Held(proxy.gen.files), proxy.lists);
      if result == Applied {
        InPlaceOnceApplied(old(proxy.disk), proxy.disk, proxy.Wanted(), proxy.conf);
      }
      if name in Held(proxy.gen.files) {
        proxy.ListServed(name);
        ListLoaded(proxy.loaded, proxy.disk, File(VMListPath(name), proxy.lists[name]), name);
      }
      return Reloaded;
    }

    /** The list seeded on first touch, and edited. */
    method Change(name: string, domains: seq<string>, edited: string, editorFailed: bool)
      returns (text: Option<string>, outcome: AllowOutcome, original: string)
      modifies proxy`lists
      ensures text.None? ==> outcome in {SeedFailed, BadDomain, EditorFailed, Unwritten, NothingNew}
      ensures text.Some? ==> outcome == Saved
      ensures outcome != SeedFailed ==>
                if name in old(proxy.lists) then original == old(proxy.lists)[name] else proxy.SeedOf(name, original)
      ensures forall n :: n != name && n in old(proxy.lists) ==> n in proxy.lists && proxy.lists[n] == old(proxy.lists)[n]
      ensures text.Some? ==> proxy.lists == old(proxy.lists)[name := original][name := text.value]
      ensures text.Some? && domains != [] ==>
                && text.value == AppendDomains(original, domains)
                && AllowEntries(text.value) == AllowEntries(original) + Fresh(AllowEntries(original), domains)
      ensures text.Some? && domains == [] ==> text.value == edited
      ensures outcome in {BadDomain, Unwritten, NothingNew} ==> proxy.lists == old(proxy.lists)[name := original]
      ensures outcome == EditorFailed ==> proxy.lists == old(proxy.lists)[name := original][name := edited]
      ensures outcome != SeedFailed && domains != [] ==> (outcome == BadDomain <==> exists d <- domains :: !ValidDomain(d))
      ensures outcome != SeedFailed ==>
                (outcome == NothingNew <==>
                   if domains != [] then (forall d <- domains :: ValidDomain(d)) && Fresh(AllowEntries(original), domains) == []
                   else !editorFailed && edited == original)
      ensures outcome != SeedFailed ==> (outcome == EditorFailed <==> domains == [] && editorFailed)
      ensures proxy.steady && old(proxy.Seedable(name)) ==> outcome !in {SeedFailed, Unwritten}
    {
      hide AllowEntries, Fresh, ValidDomain, AppendDomains, Proxy.SeedOf, Proxy.Seedable;
      var seeded := proxy.EnsureVMAllowlist(name);
      if seeded.None? {
        return None, SeedFailed, "";
      }
      original := seeded.value;
      assert proxy.lists == old(proxy.lists)[name := original];
      text, outcome := Edit(name, original, domains, edited, editorFailed);
    }

    /** cmdAllow for one VM. `known` is what the backend says of the name, `agreed` whether
        --force or a yes allows a list without a VM; with no domains the editor runs and
        leaves `edited` in the list, whether or not it then fails. */
    method Allow(name: string, known: bool, agreed: bool, domains: seq<string>, edited: string, editorFailed: bool, running: bool)
      returns (outcome: AllowOutcome, ghost original: string, ghost wanted: string)
      requires proxy.conf != ""
      modifies this, proxy`lists, proxy`honest, proxy`disk, proxy`made, proxy`trace, proxy`loaded, proxy.gen
      // A name nothing answers to gets no list unless asked for.
      ensures outcome == Declined <==> !known && name !in old(proxy.lists) && !agreed
      ensures outcome == Declined ==> proxy.lists == old(proxy.lists)
      // The list the edit starts from: the VM's own, or a fresh seed.
      ensures outcome !in {Declined, SeedFailed} ==>
                if name in old(proxy.lists) then original == old(proxy.lists)[name] else proxy.SeedOf(name, original)
      // One bad domain in a batch changes nothing.
      ensures outcome !in {Declined, SeedFailed} && domains != [] ==>
                (outcome == BadDomain <==> exists d <- domains :: !ValidDomain(d))
      ensures outcome in {BadDomain, Unwritten, NothingNew} ==> proxy.lists == old(proxy.lists)[name := original]
      ensures outcome in {Declined, SeedFailed, BadDomain, EditorFailed, Unwritten, NothingNew, Saved} ==> proxy.disk == old(proxy.disk)
      // A good one extends the list by exactly the new domains.
      ensures outcome in {Saved, SyncFailed, Refused, Reloaded} ==>
                if domains != [] then
                  && wanted == AppendDomains(original, domains)
                  && AllowEntries(wanted) == AllowEntries(original) + Fresh(AllowEntries(original), domains)
                else wanted == edited
      ensures outcome in {Saved, SyncFailed, Reloaded} ==> name in proxy.lists && proxy.lists[name] == wanted
      // Refused by squid: both sides as before, the refused text kept.
      ensures outcome == Refused ==>
                && name in proxy.lists && proxy.lists[name] == original
                && refused == old(refused)[name := wanted]
                && (proxy.honest ==> UpToCandidate(proxy.disk, old(proxy.disk)))
      ensures outcome !in {Refused, RestoreFailed} ==> refused == old(refused)
      // Applied: the VM's copy is the host's list, and what squid runs on if it ran on its disk.
      ensures outcome == Reloaded ==>
                && proxy.Settled()
                && (name in Held(proxy.gen.files) ==> Holds(proxy.disk, File(VMListPath(name), wanted)))
      ensures outcome == Reloaded && old(proxy.Live()) ==>
                proxy.Live() && (name in Held(proxy.gen.files) ==> Holds(proxy.loaded, File(VMListPath(name), wanted)))
      // When nothing fails and the list can be seeded, the edit and squid decide.
      ensures old(Dependable() && proxy.Seedable(name)) ==> outcome !in {SeedFailed, Unwritten, SyncFailed, RestoreFailed}
      ensures outcome !in {Declined, SeedFailed} ==>
                (outcome == NothingNew <==>
                   if domains != [] then (forall d <- domains :: ValidDomain(d)) && Fresh(AllowEntries(original), domains) == []
                   else !editorFailed && edited == original)
      ensures outcome !in {Declined, SeedFailed} ==> (outcome == EditorFailed <==> domains == [] && editorFailed)
      ensures outcome !in {Declined, SeedFailed, BadDomain, NothingNew, EditorFailed, Unwritten} ==> (outcome == Saved <==> !running)
      ensures old(Dependable()) && outcome in {Reloaded, Refused} && (forall f :: proxy.parses(proxy.conf, f)) ==> outcome == Reloaded
      ensures old(Dependable() && proxy.Ready()) && outcome in {Reloaded, Refused} ==>
                outcome == if Acceptable(old(proxy.disk), WantedThen(old(proxy.template), old(proxy.gen.files), old(proxy.lists)[name := wanted]))
                           then Reloaded else Refused
      ensures proxy.gen.files == old(proxy.gen.files) || proxy.gen.files == old(proxy.gen.files)[RENDERED_FILE := proxy.conf]
      // No other list changes, but for seeds of lists that were missing.
      ensures forall n :: n != name && n in old(proxy.lists) ==> n in proxy.lists && proxy.lists[n] == old(proxy.lists)[n]
    {
      hide Put, Proxy.Parsed, Desired, Held, Readable, UpToCandidate, InPlace, Distinct, AllOrdinary, Ordinary, Proxy.SeedOf,
           Proxy.SafeSince, Proxy.LeftBy, RENDERED_FILE, AllowEntries, Fresh, ValidDomain, AppendDomains, VMListPath, Proxy.Live,
           Proxy.Seedable, Proxy.Sound, Acceptable;
      original, wanted := "", "";
      if !known && name !in proxy.lists && !agreed {
        return Declined, original, wanted;
      }
      var text, why, was := Change(name, domains, edited, editorFailed);
      original := was;
      if text.None? {
        return why, original, wanted;
      }
      wanted := text.value;
      EditedLists(old(proxy.lists), name, original, wanted);
      outcome := Apply(name, was, running);
    }

    /** One list edited, as the lists go. */
    lemma EditedLists(before: map<string, string>, name: string, original: string, wanted: string)
      ensures before[name := original][name := wanted] == before[name := wanted]
    {
    }
  }

  /** What is on the disk besides the config is what squid has loaded, while it runs on it. */
  lemma ListLoaded(loaded: Files, disk: Files, file: File, name: string)
    requires file.path == VMListPath(name) && Holds(disk, file)
    ensures Support(loaded) == Support(disk) ==> Holds(loaded, file)
  {
    ListPathsDiffer(name, name);
    if Support(loaded) == Support(disk) {
      assert file.path in Support(disk) && Support(disk)[file.path] == file.content;
    }
  }

  // --- the seed's header and the entries under it ---------------------------------------------------

  lemma {:induction false} TrimRightKeeps(s: string, k: nat)
    requires k < |s| && !IsSpace(s[k])
    ensures |TrimRight(s)| > k && TrimRight(s) <= s
  {
    if IsSpace(s[|s| - 1]) {
      TrimRightKeeps(s[..|s| - 1], k);
    }
  }

  /** A comment whose first word is no directive. */
  predicate PlainComment(line: string) {
    |line| > 2 && line[0] == '#' && line[1] == ' ' && !IsSpace(line[2]) && line[2] != '@' && OneLine(line)
  }

  lemma PlainCommentIsHeaderLine(line: string)
    requires PlainComment(line)
    ensures HeaderLine(line)
  {
    TrimRightKeeps(line, 2);
    var text := TrimRight(line);
    assert TrimLeft(line) == line;
    var rest := text[1..];
    assert rest[1] == line[2];
    assert TrimLeft(rest) == rest[1..];
    TrimRightKeepsHead(rest[1..]);
  }

  lemma PlainCommentThen(line: string, more: string)
    requires PlainComment(line) && OneLine(more)
    ensures PlainComment(line + more)
  {
  }

  lemma OwnerComments(name: string, today: string)
    requires OneLine(name) && OneLine(today)
    ensures PlainComment(SeedHeader(name, today)[0])
  {
    var a, b := "# Egress allowlist for VM \"", "\", seeded from allowed_domains.txt on ";
    assert PlainComment(a) && OneLine(b) && OneLine(".");
    hide PlainComment, OneLine;
    PlainCommentThen(a, name);
    PlainCommentThen(a + name, b);
    PlainCommentThen(a + name + b, today);
    PlainCommentThen(a + name + b + today, ".");
  }

  lemma AllowComments(name: string, today: string)
    requires OneLine(name)
    ensures PlainComment(SeedHeader(name, today)[2])
  {
    var a, b := "# `ptrbox allow ", "`, or delete it to re-seed from the template.";
    assert PlainComment(a) && OneLine(b);
    hide PlainComment, OneLine;
    PlainCommentThen(a, name);
    PlainCommentThen(a + name, b);
  }

  lemma EditComments(name: string, today: string)
    ensures PlainComment(SeedHeader(name, today)[1])
  {
    var a, b := "# This file alone decides ", "what this VM may CONNECT to - edit it with";
    assert PlainComment(a) && OneLine(b);
    hide PlainComment, OneLine;
    PlainCommentThen(a, b);
  }

  lemma GroupComments(name: string, today: string)
    ensures PlainComment(SeedHeader(name, today)[3])
  {
    var a, b := "# The `@requires` groups follow ", "this VM's config on each `ptrbox new`;";
    assert PlainComment(a) && OneLine(b);
    hide PlainComment, OneLine;
    PlainCommentThen(a, b);
  }

  lemma OwnComments(name: string, today: string)
    ensures PlainComment(SeedHeader(name, today)[4])
  {
    var a, b := "# everything else in ", "the file is yours.";
    assert PlainComment(a) && OneLine(b);
    hide PlainComment, OneLine;
    PlainCommentThen(a, b);
    assert a + b == "# everything else in the file is yours.";
  }

  /** What is written above a seed is comments only: it holds no entry and no marker. */
  lemma SeedHeaderIsHeader(name: string, today: string)
    requires VMName(name) && OneLine(today)
    ensures forall l <- SeedHeader(name, today) :: HeaderLine(l)
  {
    hide HeaderLine, PlainComment;
    NameIsOneLine(name);
    OwnerComments(name, today);
    EditComments(name, today);
    AllowComments(name, today);
    GroupComments(name, today);
    OwnComments(name, today);
    BlankIsHeaderLine();
    var h := SeedHeader(name, today);
    forall l | l in h ensures HeaderLine(l) {
      var k :| 0 <= k < |h| && h[k] == l;
      if k < 5 {
        PlainCommentIsHeaderLine(h[k]);
      }
    }
  }

  lemma NameIsOneLine(name: string)
    requires VMName(name)
    ensures OneLine(name)
  {
  }

  lemma BlankIsHeaderLine()
    ensures HeaderLine("")
  {
    BlankIsPlain();
  }

  /** Path independence for the very text ensureVMAllowlist writes: after any re-creates
      and appended domains the list holds what a fresh seed for the last configuration
      would, then the appended domains. */
  lemma ListFollowsItsConfig(template: string, name: string, today: string, start: Features, ops: seq<Op>)
    requires VMName(name) && OneLine(today)
    requires SeedLines(ScanLines(template), start).Ok?
    requires TwinsEmpty(GroupsOf(ScanLines(template)))
    ensures var lines := ScanLines(template);
            var body := Unlines(SeedHeader(name, today)) + Unlines(SeedLines(lines, start).value);
            && SeedLines(lines, LastWants(start, ops)).Ok?
            && AllowEntries(Run(body, GroupsOf(lines), ops))
               == EntryDomains(SeedLines(lines, LastWants(start, ops)).value) + AddedBy(body, GroupsOf(lines), ops)
  {
    hide ScanLines, SeedHeader, HeaderLine, Run, AddedBy, EntryDomains, TwinsEmpty, OneLine;
    ScannedLinesAreLines(template);
    SeedHeaderIsHeader(name, today);
    UnlinesAppend(SeedHeader(name, today), SeedLines(ScanLines(template), start).value);
    PathIndependence(ScanLines(template), SeedHeader(name, today), start, ops);
  }

  /** A re-create with an unchanged configuration rewrites no byte of a list nobody has
      edited, up to its final newlines, exactly when the template's groups settle for it. */
  lemma FreshListExactly(template: string, name: string, today: string, wants: Features)
    requires VMName(name) && OneLine(today)
    requires SeedLines(ScanLines(template), wants).Ok?
    ensures var lines := ScanLines(template);
            var body := Unlines(SeedHeader(name, today)) + Unlines(SeedLines(lines, wants).value);
            ReconciledText(body, GroupsOf(lines), wants) == TrimNewlines(body) + "\n"
            <==> SeedSettles(GroupsOf(lines), wants)
  {
    hide ScanLines, SeedHeader, HeaderLine, ReconciledText, TrimNewlines, OneLine, SeedSettles, GroupsOf;
    ScannedLinesAreLines(template);
    SeedHeaderIsHeader(name, today);
    UnlinesAppend(SeedHeader(name, today), SeedLines(ScanLines(template), wants).value);
    FreshTextExactly(ScanLines(template), SeedHeader(name, today), wants);
  }

  /** And of the lines themselves: after any re-creates and appended domains the text is the
      header, the lines of a fresh seed for the last configuration and the appended domains. */
  lemma ListRetraces(template: string, name: string, today: string, start: Features, ops: seq<Op>)
    requires VMName(name) && OneLine(today)
    requires SeedLines(ScanLines(template), start).Ok? && Reversible(GroupsOf(ScanLines(template)))
    ensures var lines := ScanLines(template);
            var body := Unlines(SeedHeader(name, today)) + Unlines(SeedLines(lines, start).value);
            && SeedLines(lines, LastWants(start, ops)).Ok?
            && var anew := SeedHeader(name, today) + SeedLines(lines, LastWants(start, ops)).value;
               var now, added := Run(body, GroupsOf(lines), ops), AddedBy(body, GroupsOf(lines), ops);
               now == Unlines(anew + added) || now == Unlines(BodyLines(Unlines(anew)) + added)
  {
    hide ScanLines, SeedHeader, HeaderLine, Run, AddedBy, Reversible, OneLine, BodyLines, Unlines, GroupsOf;
    ScannedLinesAreLines(template);
    SeedHeaderIsHeader(name, today);
    UnlinesAppend(SeedHeader(name, today), SeedLines(ScanLines(template), start).value);
    RunsRetrace(ScanLines(template), SeedHeader(name, today), start, ops);
  }
}
