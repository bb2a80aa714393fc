/** What squid answers from the files it has loaded: the rules are read from their own text, the
    lists from the files the rules name. And when those are the files on the disk. */
module Served {
  import opened Text
  import opened Ports
  import opened Squid
  import opened Sync
  import opened Domains
  import opened Allow

  lemma Glued(a: string, b: string)
    requires OneLine(a) && OneLine(b)
    ensures OneLine(a + b)
  {
  }

  lemma NumberIsOneLine(n: nat)
    ensures OneLine(FormatInt(n))
  {
    hide Decimal;
    DecimalDigits(n);
  }

  lemma NameIsOneLine(name: string)
    requires VMName(name)
    ensures OneLine(name)
  {
  }

  lemma AclsAreLines(name: string)
    requires VMName(name)
    ensures OneLine(PortAcl(name)) && OneLine(DomainsAcl(name)) && OneLine(VMListPath(name))
  {
    NameIsOneLine(name);
    assert OneLine("vm_") && OneLine("_port") && OneLine("_domains") && OneLine(VM_ALLOWLIST_DIR) && OneLine("/") && OneLine(".txt");
    hide OneLine, VMName;
    Glued("vm_", name);
    Glued("vm_" + name, "_port");
    Glued("vm_" + name, "_domains");
    Glued(VM_ALLOWLIST_DIR, "/");
    Glued(VM_ALLOWLIST_DIR + "/", name);
    Glued(VM_ALLOWLIST_DIR + "/" + name, ".txt");
  }

  lemma AclLinesAreLines(name: string, port: nat)
    requires VMName(name)
    ensures OneLine(RuleLines(name, port)[0]) && OneLine(RuleLines(name, port)[1])
  {
    AclsAreLines(name);
    NumberIsOneLine(port);
    assert OneLine("acl ") && OneLine(" localport ") && OneLine(" dstdomain ") && OneLine("\"");
    hide OneLine, VMName, PortAcl, DomainsAcl, VMListPath, FormatInt;
    Glued("acl ", PortAcl(name));
    Glued("acl " + PortAcl(name), " localport ");
    Glued("acl " + PortAcl(name) + " localport ", FormatInt(port));
    Glued("\"", VMListPath(name));
    Glued("\"" + VMListPath(name), "\"");
    Glued("acl ", DomainsAcl(name));
    Glued("acl " + DomainsAcl(name), " dstdomain ");
    Glued("acl " + DomainsAcl(name) + " dstdomain ", "\"" + VMListPath(name) + "\"");
  }

  lemma AccessRulesAreLines(name: string, port: nat)
    requires VMName(name)
    ensures OneLine(RuleLines(name, port)[2]) && OneLine(RuleLines(name, port)[3])
  {
    AclsAreLines(name);
    var allow, deny := "http_access allow from_forward CONNECT ", "http_access deny ";
    assert OneLine(allow) && OneLine(deny) && OneLine(" ");
    hide OneLine, VMName, PortAcl, DomainsAcl, VMListPath, FormatInt;
    Glued(allow, PortAcl(name));
    Glued(allow + PortAcl(name), " ");
    Glued(allow + PortAcl(name) + " ", DomainsAcl(name));
    Glued(deny, PortAcl(name));
  }

  lemma {:induction false} AllRulesAreLines(names: seq<string>, ports: map<string, int>)
    requires forall n <- names :: n in ports && VMName(n) && ports[n] >= 0
    ensures forall l <- AllRuleLines(names, ports) :: OneLine(l)
  {
    hide OneLine, VMName, RuleLines;
    if names != [] {
      var n := names[0];
      assert n in names && forall m <- names[1..] :: m in names;
      AllRulesAreLines(names[1..], ports);
      RulesAreLines(n, ports[n]);
    }
  }

  lemma RulesAreLines(name: string, port: nat)
    requires VMName(name)
    ensures forall l <- RuleLines(name, port) :: OneLine(l)
  {
    AclLinesAreLines(name, port);
    AccessRulesAreLines(name, port);
    hide OneLine, VMName, PortAcl, DomainsAcl, VMListPath, FormatInt;
    forall l | l in RuleLines(name, port) ensures OneLine(l) {
      var i :| 0 <= i < |RuleLines(name, port)| && RuleLines(name, port)[i] == l;
    }
  }

  lemma TitleIsOneLine()
    ensures OneLine(HEADER_TITLE)
  {
    Glued("Generated by ptrbox - per-VM access ", "rules. Do not edit: the next sync");
    Glued("# ", "Generated by ptrbox - per-VM access " + "rules. Do not edit: the next sync");
  }

  lemma SourceIsOneLine()
    ensures OneLine(HEADER_SOURCE)
  {
    Glued("rewrites this file from the port ", "allocations and the per-VM allowlists");
    Glued("# ", "rewrites this file from the port " + "allocations and the per-VM allowlists");
  }

  lemma PlaceIsOneLine()
    ensures OneLine(HEADER_PLACE)
  {
    Glued("under ~/.config/ptrbox/allowed_domains.d/ ", "on the host.");
    Glued("# ", "under ~/.config/ptrbox/allowed_domains.d/ " + "on the host.");
  }

  /** squid reads from the file the very lines that were generated. */
  lemma AccessTextReads(ports: map<string, int>)
    requires forall n :: n in ports ==> VMName(n) && ports[n] >= 0
    ensures ScanLines(Unlines(AccessLines(ports))) == AccessLines(ports)
  {
    hide OneLine, VMName, RuleLines, AllRuleLines, HEADER_TITLE, HEADER_SOURCE, HEADER_PLACE, Sorted, ScanLines, Unlines;
    var names := Sorted(ports.Keys);
    AllRulesAreLines(names, ports);
    TitleIsOneLine();
    SourceIsOneLine();
    PlaceIsOneLine();
    forall l | l in HEADER ensures OneLine(l) {
      var i :| 0 <= i < |HEADER| && HEADER[i] == l;
    }
    forall l | l in AccessLines(ports) ensures OneLine(l) {
      assert l in HEADER || l in AllRuleLines(names, ports);
    }
    ScanOfUnlines(AccessLines(ports));
  }

  /** squid's answer from some files: the template's rules around whatever the access file says. */
  ghost function Answer(above: seq<Rule>, files: Files, below: seq<Rule>, r: Request): Option<bool> {
    Decide(above + ReadConf(ScanLines(FileText(files, VM_ACCESS_PATH)), TEMPLATE_ENV) + below, r, files)
  }

  lemma FilesAnswer(files: Files, template: string, dir: Dir, lists: map<string, string>, conf: string,
                    above: seq<Rule>, below: seq<Rule>, r: Request)
    requires Ledger(dir) && (forall n :: n in Held(dir) ==> VMName(n) && n in lists)
    requires InPlace(files, Desired(template, Held(dir), lists), conf)
    ensures Answer(above, files, below, r) == Verdict(above, Held(dir), below, r, files)
  {
    hide Held, Readable, Desired, InPlace, VMName, ScanLines, Unlines, AccessLines, ReadConf, Decide;
    AccessInPlace(files, template, Held(dir), lists, conf);
    AccessTextReads(Held(dir));
  }

  /** With everything in place, a request on a VM's port that the template's own denies let
      through is answered by that VM's list, and by nothing else anywhere. */
  lemma FilesIsolate(files: Files, template: string, dir: Dir, lists: map<string, string>, conf: string,
                     above: seq<Rule>, below: seq<Rule>, name: string, r: Request)
    requires Ledger(dir) && (forall n :: n in Held(dir) ==> VMName(n) && n in lists)
    requires InPlace(files, Desired(template, Held(dir), lists), conf)
    requires forall rule <- above :: !rule.allow
    requires name in Held(dir) && r.port == Held(dir)[name]
    ensures Answer(above, files, below, r)
         == if Decide(above, r, files).Some? then Some(false)
            else Some(r.permitted && r.connect && ListAllows(lists[name], r.host))
  {
    hide Held, Readable, Desired, InPlace, VMName, ScanLines, Unlines, AccessLines, ReadConf, Decide, Answer, Verdict, ListAllows, VMListPath;
    FilesAnswer(files, template, dir, lists, conf, above, below, r);
    Isolation(above, dir, below, name, r, files);
    ListInPlace(files, template, Held(dir), lists, conf, name);
  }

  /** What squid has loaded is in place when the disk is and squid runs on it. */
  lemma LoadedInPlace(p: Proxy)
    requires p.Settled() && p.Live()
    ensures InPlace(p.loaded, p.Wanted(), p.conf)
  {
    hide Held, Readable, Desired, InPlace, Support;
    DesiredIsDistinct(p.template.value, Held(p.gen.files), p.lists);
    StaysInPlace(p.loaded, p.disk, p.Wanted(), p.conf);
  }

  /** End to end: while squid runs on a disk that a sync left as desired, a request on a VM's
      port is answered by that VM's list on the host. Proxy.Sync says when it does: a sync
      without error leaves squid on the disk exactly when it reloaded or squid was there. */
  lemma ServedIsolation(p: Proxy, above: seq<Rule>, below: seq<Rule>, name: string, r: Request)
    requires p.Settled() && p.Live()
    requires Ledger(p.gen.files) && forall n :: n in Held(p.gen.files) ==> VMName(n)
    requires forall rule <- above :: !rule.allow
    requires name in Held(p.gen.files) && r.port == Held(p.gen.files)[name]
    ensures name in p.lists
    ensures Answer(above, p.loaded, below, r)
         == if Decide(above, r, p.loaded).Some? then Some(false)
            else Some(r.permitted && r.connect && ListAllows(p.lists[name], r.host))
  {
    hide Held, Readable, Desired, InPlace, VMName, Decide, Answer, ListAllows, Support;
    LoadedInPlace(p);
    FilesIsolate(p.loaded, p.template.value, p.gen.files, p.lists, p.conf, above, below, name, r);
  }

  /** A VM's own port, once it is nobody's: the template alone decides. */
  lemma ServedUnheld(p: Proxy, above: seq<Rule>, below: seq<Rule>, r: Request)
    requires p.Settled() && p.Live()
    requires Ledger(p.gen.files) && forall n :: n in Held(p.gen.files) ==> VMName(n)
    requires r.port >= 0 && r.port !in Held(p.gen.files).Values
    ensures Answer(above, p.loaded, below, r) == Decide(above + below, r, p.loaded)
  {
    hide Held, Readable, Desired, InPlace, VMName, Decide, Answer, Support, Verdict;
    LoadedInPlace(p);
    FilesAnswer(p.loaded, p.template.value, p.gen.files, p.lists, p.conf, above, below, r);
    UnheldPort(above, p.gen.files, below, r, p.loaded);
  }

  /** A domain added to a VM's list whose reload fails stays refused, through the next sync as
      well: host and disk allow it, squid does not, and nothing is left to do. */
  method AddedDomainStaysRefused(p: Proxy, name: string, text: string,
                                 ghost above: seq<Rule>, ghost below: seq<Rule>, ghost r: Request)
    returns (ghost second: SyncResult, ghost err: bool)
    requires p.conf != "" && p.steady && p.gen.steady && p.reloads == Some(false) && forall f :: p.parses(p.conf, f)
    requires p.Sound() && p.Ready() && p.honest && p.Live() && InPlace(p.disk, p.Wanted(), p.conf)
    requires Ledger(p.gen.files) && forall n :: n in Held(p.gen.files) ==> VMName(n)
    requires (forall rule <- above :: !rule.allow) && forall f :: Decide(above, r, f) == None
    requires name in Held(p.gen.files) && r.port == Held(p.gen.files)[name] && r.connect && r.permitted
    requires !ListAllows(p.lists[name], r.host) && ListAllows(text, r.host)
    modifies p, p.gen
    ensures second == Unchanged && !err
    ensures p.Ready() && name in p.lists && p.lists[name] == text && InPlace(p.disk, p.Wanted(), p.conf)
    ensures Answer(above, p.disk, below, r) == Some(true)
    ensures Answer(above, p.loaded, below, r) == Some(false)
  {
    hide Held, Readable, Desired, InPlace, VMName, Decide, Answer, ListAllows, Support, Proxy.Seedable, VMListPath, Holds,
         RENDERED_FILE, Injective;
    ghost var template, files, lists := p.template.value, p.gen.files, p.lists;
    LoadedInPlace(p);
    FilesIsolate(p.loaded, template, files, lists, p.conf, above, below, name, r);
    p.ListServed(name);
    p.lists := p.lists[name := text];
    NewListIsNotInPlace(p.disk, template, files, lists, p.lists, p.conf, name);
    var first, err1, again, err2 := FailedReloadGoesUnnoticed(p);
    second, err := again, err2;
    FilesIsolate(p.disk, p.template.value, p.gen.files, p.lists, p.conf, above, below, name, r);
  }

  /** `ptrbox allow`, end to end: a fresh domain for a VM that has a port, on a host where
      nothing fails and with files squid accepts, and a request to it is let through. */
  method AllowedDomainIsServed(a: AllowCommand, name: string, domain: string,
                               ghost above: seq<Rule>, ghost below: seq<Rule>, ghost r: Request)
    returns (outcome: AllowOutcome)
    requires a.proxy.conf != "" && a.Dependable() && (forall f :: a.proxy.parses(a.proxy.conf, f)) && a.proxy.Live()
    requires Ledger(a.proxy.gen.files) && forall n :: n in Held(a.proxy.gen.files) ==> VMName(n)
    requires name in Held(a.proxy.gen.files) && r.port == Held(a.proxy.gen.files)[name] && r.connect && r.permitted
    requires (forall rule <- above :: !rule.allow) && forall f :: Decide(above, r, f) == None
    requires ValidDomain(domain) && DomainMatches(domain, r.host)
    requires name in a.proxy.lists && domain !in AllowEntries(a.proxy.lists[name])
    modifies a, a.proxy, a.proxy.gen
    ensures outcome == Reloaded
    ensures name in a.proxy.lists && AllowEntries(a.proxy.lists[name]) == AllowEntries(old(a.proxy.lists)[name]) + [domain]
    ensures Answer(above, a.proxy.loaded, below, r) == Some(true)
  {
    hide Held, Readable, Desired, InPlace, VMName, Decide, Answer, Support, Proxy.Seedable, VMListPath, Holds, AppendDomains,
         RENDERED_FILE, Injective, ValidDomain, AllowEntries, Proxy.SeedOf, AllowCommand.Acceptable, Proxy.Live, DomainMatches, Put;
    ghost var files := a.proxy.gen.files;
    assert a.proxy.Seedable(name);
    OneFresh(AllowEntries(a.proxy.lists[name]), domain);
    ghost var original: string, wanted: string;
    outcome, original, wanted := a.Allow(name, true, false, [domain], "", false, true);
    assert domain in AllowEntries(a.proxy.lists[name]);
    a.proxy.RenderedIsNoSidecar(files);
    ServedIsolation(a.proxy, above, below, name, r);
  }

  lemma OneFresh(held: seq<string>, domain: string)
    requires domain !in held
    ensures Fresh(held, [domain]) == [domain]
  {
    assert [domain][..0] == [];
  }

  lemma NewListIsNotInPlace(disk: Files, template: string, dir: Dir, was: map<string, string>, now: map<string, string>, conf: string,
                            name: string)
    requires Readable(dir) && name in Held(dir) && (forall n :: n in Held(dir) ==> n in was && n in now)
    requires was[name] != now[name] && Holds(disk, File(VMListPath(name), was[name]))
    ensures !InPlace(disk, Desired(template, Held(dir), now), conf)
  {
    hide Held, Readable, Desired, InPlace, VMListPath;
    if InPlace(disk, Desired(template, Held(dir), now), conf) {
      ListInPlace(disk, template, Held(dir), now, conf, name);
    }
  }
}
