/** The commands that move VMs, internal/cli/lifecycle.go, new.go and shell.go, with Ensure and
    StopIfIdle of internal/proxy/proxy.go: a state machine over the backend's VMs and the
    generated directory. One command runs at a time; any step of one may fail. */
module Lifecycle {
  import opened Text
  import opened Allowlist
  import opened Ports
  import opened Squid
  import opened Sync

  const PROXY_VM := "ptrbox-proxy"
  const RUNNING: Status := "Running"
  const STOPPED: Status := "Stopped"

  /** A VM's status as the backend lists it; a VM that is not there has none. */
  type Status = s: string | s != "" witness "Running"

  function ConfigFile(name: string): string { name + ".yaml" }

  function RepoFile(name: string): string { name + ".repo" }

  // --- the generated directory ------------------------------------------------------------------

  /** strings.TrimRight(text, "\r\n") */
  function TrimLineEnd(text: string): string {
    if text != "" && (text[|text| - 1] == '\n' || text[|text| - 1] == '\r') then TrimLineEnd(text[..|text| - 1]) else text
  }

  /** One absolute path and nothing else. */
  predicate NamesRepo(text: string) {
    var path := TrimLineEnd(text);
    "/" <= path && '\n' !in path && '\r' !in path
  }

  ghost predicate LineEnds(s: string) {
    forall c <- s :: c == '\n' || c == '\r'
  }

  lemma {:induction false} LineEndsGo(path: string, end: string)
    requires LineEnds(end) && (path == "" || !LineEnds([path[|path| - 1]]))
    ensures TrimLineEnd(path + end) == path
  {
    if end == "" {
      assert path + end == path;
      assert path != "" ==> path[|path| - 1] in [path[|path| - 1]];
    } else {
      var n := |end| - 1;
      assert (path + end)[..|path + end| - 1] == path + end[..n] && end[n] in end;
      assert forall c <- end[..n] :: c in end;
      LineEndsGo(path, end[..n]);
    }
  }

  lemma {:induction false} TrimmedIsStart(text: string)
    ensures exists end :: text == TrimLineEnd(text) + end && LineEnds(end)
  {
    if text != "" && LineEnds([text[|text| - 1]]) {
      assert text[|text| - 1] in [text[|text| - 1]];
      var front := text[..|text| - 1];
      TrimmedIsStart(front);
      var end :| front == TrimLineEnd(front) + end && LineEnds(end);
      var more := end + [text[|text| - 1]];
      assert text == TrimLineEnd(front) + more && LineEnds(more);
    } else {
      assert text == text + "" && LineEnds("");
    }
  }

  /** A repo file names a repo when it holds one absolute path, on one line. */
  lemma NamesRepoExactly(text: string)
    ensures NamesRepo(text) <==> exists path, end :: text == "/" + path + end && LineEnds(end) && forall c <- path :: !LineEnds([c])
  {
    if NamesRepo(text) {
      TrimmedIsStart(text);
      var end :| text == TrimLineEnd(text) + end && LineEnds(end);
      var path := TrimLineEnd(text)[1..];
      forall c | c in path ensures !LineEnds([c]) { assert c in [c] && c in TrimLineEnd(text); }
      assert text == "/" + path + end;
    }
    if path, end :| text == "/" + path + end && LineEnds(end) && forall c <- path :: !LineEnds([c]) {
      var whole := "/" + path;
      assert !LineEnds(['/']) by { assert '/' in ['/']; }
      assert whole[|whole| - 1] == '/' || whole[|whole| - 1] in path;
      LineEndsGo(whole, end);
      forall c | c in path ensures c != '\n' && c != '\r' { assert c in [c]; }
    }
  }

  /** Outside `files`, two directories agree. */
  ghost predicate SameBut<V>(a: map<string, V>, b: map<string, V>, files: set<string>) {
    forall f :: f !in files ==> (f in a <==> f in b) && (f in a ==> a[f] == b[f])
  }

  lemma SameButTwice<V>(a: map<string, V>, b: map<string, V>, c: map<string, V>, first: set<string>, second: set<string>)
    requires SameBut(a, b, first) && SameBut(b, c, second)
    ensures SameBut(a, c, first + second)
  {
  }

  lemma SameAsItself<V>(a: map<string, V>, files: set<string>)
    ensures SameBut(a, a, files)
  {
  }

  lemma ArtifactNames(name: string, other: string)
    ensures !IsSidecar(ConfigFile(name)) && !IsSidecar(RepoFile(name)) && !IsSidecar(RENDERED_FILE)
    ensures ConfigFile(name) == ConfigFile(other) ==> name == other
    ensures PortFile(name) == PortFile(other) ==> name == other
    ensures ConfigFile(name) != RepoFile(other) && ConfigFile(name) != PortFile(other)
    ensures RepoFile(name) != PortFile(other)
    ensures ConfigFile(name) != RENDERED_FILE && RepoFile(name) != RENDERED_FILE && PortFile(name) != RENDERED_FILE
  {
    var c, r, p := ConfigFile(name), RepoFile(name), PortFile(name);
    assert c[|c| - 1] == 'l' && r[|r| - 1] == 'o' && p[|p| - 1] == 't' && RENDERED_FILE[|RENDERED_FILE| - 1] == 'f';
    assert SUFFIX[|SUFFIX| - 1] == 't';
    assert ConfigFile(other)[|ConfigFile(other)| - 1] == 'l' && RepoFile(other)[|RepoFile(other)| - 1] == 'o';
    assert PortFile(other)[|PortFile(other)| - 1] == 't';
    assert c[..|c| - 5] == name && ConfigFile(other)[..|ConfigFile(other)| - 5] == other;
    SidecarNames(name);
    SidecarNames(other);
  }

  lemma OtherFileStays(a: Dir, b: Dir)
    requires SameBut(a, b, {RENDERED_FILE})
    ensures ConfigFile(PROXY_VM) in a ==> ConfigFile(PROXY_VM) in b && b[ConfigFile(PROXY_VM)] == a[ConfigFile(PROXY_VM)]
  {
    hide ConfigFile;
    ArtifactNames(PROXY_VM, PROXY_VM);
  }

  /** Outside `names`, nothing `a` holds is lost or changed. */
  ghost predicate Keeps<V>(a: map<string, V>, b: map<string, V>, names: set<string>) {
    forall n :: n in a && n !in names ==> n in b && b[n] == a[n]
  }

  lemma SameButKeeps(a: map<string, string>, b: map<string, string>, names: set<string>)
    requires SameBut(a, b, names)
    ensures Keeps(a, b, names)
  {
  }

  /** Files that are no sidecars do not touch the ledger. */
  lemma SameLedger(a: Dir, b: Dir, files: set<string>)
    requires SameBut(a, b, files) && forall f <- files :: !IsSidecar(f)
    requires Ledger(a)
    ensures Ledger(b) && Held(b) == Held(a)
  {
    hide Held, Atoi, TrimSpace, IsSidecar, PortFile;
    forall file | file in b && IsSidecar(file) ensures Atoi(TrimSpace(b[file])).Some? {
      assert file in a && a[file] == b[file];
    }
    forall name ensures PortFile(name) !in files { SidecarNames(name); }
    SameSidecars(a, b);
  }

  lemma StillCleared(name: string, a: Dir, b: Dir)
    requires SameBut(a, b, {RENDERED_FILE}) && Artifacts(name) !! a.Keys
    ensures Artifacts(name) !! b.Keys
  {
    hide ConfigFile, RepoFile, PortFile, IsSidecar, RENDERED_FILE;
    ArtifactNames(name, name);
  }

  lemma LedgerIsReadable(dir: Dir)
    requires Ledger(dir)
    ensures Readable(dir)
  {
  }

  /** What runs inside a VM: how often it has booted, and whether what its first boot set up
      is what vm/verify.sh looks for once the firewall is up. */
  datatype Guest = Guest(boots: nat, secure: bool)

  /** What a command has done that leaves nothing else to see. */
  datatype Step =
    | Hooks(name: string)      // the repo's git hooks set as the settings ask
    | Validated(name: string)  // the backend accepted the rendered config
    | Planned(name: string)
    | Archived(name: string)
    | Readied(name: string)
    | Entered(name: string)

  /** Whether at every moment so far the proxy ran when a sandbox did: one that `new` created,
      one that is registered. */
  datatype Watch = Watch(created: bool, registered: bool)

  class Host {
    const proxy: Proxy
    /** host/allowed_domains.txt as shipped */
    const shipped: string
    /** The proxy VM's config as rendered. */
    const rendered: string
    /** Whether a fresh proxy must reboot to take its address. */
    const direct: bool
    /** Whether the backend writes an ssh config to link to. */
    const linked: bool
    /** The first `deaf` listings fail. With `steady` no other call does; without it any may. */
    const deaf: nat
    const steady: bool
    /** Whether a VM comes out of its first boot secure; None when it may or may not. */
    const fit: Option<bool>
    /** Whether a rendered config names the directory it mounts. */
    const located: string -> bool
    /** The keychain's token, if there is one. */
    const token: Option<string>

    /** The backend's VMs, by name: their status. */
    var vms: map<string, Status>
    var guests: map<string, Guest>
    var sshLinks: set<string>
    /** What the command that runs has done. */
    ghost var steps: set<Step>

    /** The sandboxes `new` created that no `rm` has removed. */
    ghost var mine: set<string>
    /** The sandboxes that passed verification, and those that hold the token. */
    ghost var verified: set<string>
    ghost var tokens: set<string>
    /** How many listings failed so far. */
    var lapses: nat
    /** An `rm` was told that a sandbox `new` created is not there, and it was. */
    ghost var misled: bool
    /** A `new` was told that a running VM is not there, with the proxy down. */
    ghost var adopted: bool
    /** What held at every moment so far. */
    ghost var watch: Watch

    ghost predicate Up(name: string)
      reads this`vms
    {
      name in vms && vms[name] == RUNNING
    }

    /** A guest whose check passes: secure, and booted again since its first boot. */
    predicate Walled(name: string)
      reads this`vms, this`guests
    {
      name in vms && name in guests && guests[name].secure && guests[name].boots >= 2
    }

    /** A ptrbox VM, as StopIfIdle tells: one with a rendered config. */
    predicate Registered(name: string)
      reads proxy.gen
    {
      ConfigFile(name) in proxy.gen.files && name != PROXY_VM
    }

    /** No sandbox `new` created runs without its only way out. */
    ghost predicate Covered()
      reads this`vms, this`mine
    {
      forall n <- mine :: Up(n) ==> Up(PROXY_VM)
    }

    /** No registered sandbox does. */
    ghost predicate Guarded()
      reads this`vms, proxy.gen
    {
      forall n :: Registered(n) && Up(n) ==> Up(PROXY_VM)
    }

    /** Every sandbox `new` created still has its config. */
    ghost predicate Tracked()
      reads this`mine, proxy.gen
    {
      forall n <- mine :: Registered(n)
    }

    ghost predicate KeptUp()
      reads this`vms, this`mine, this`watch
    {
      watch.created && Covered()
    }

    ghost predicate KeptGuarded()
      reads this`vms, this`watch, proxy.gen
    {
      watch.registered && Guarded()
    }

    ghost predicate Served()
      reads this`vms, this`mine, this`watch, proxy.gen
    {
      KeptUp() && Tracked()
    }

    /** No call fails but a listing, squid accepts what it is given, and the host's files are in
        order. */
    ghost predicate Calm()
      reads proxy`honest, proxy`template, proxy`overlay, proxy.gen
    {
      && steady && proxy.steady && proxy.gen.steady && proxy.reloads == Some(true)
      && (forall c, f :: proxy.parses(c, f))
      && proxy.honest && proxy.Sound()
    }

    /** Nor does a listing. */
    ghost predicate Fair()
      reads this`lapses, proxy`honest, proxy`template, proxy`overlay, proxy.gen
    {
      steady && deaf <= lapses && Calm()
    }

    /** What every command keeps. */
    ghost predicate Valid()
      reads this`vms, this`guests, this`mine, this`watch, this`misled, this`adopted, this`verified, this`tokens, proxy.gen
    {
      && proxy.conf != ""
      && Ledger(proxy.gen.files)
      && (forall n :: n in Held(proxy.gen.files) ==> VMName(n) && n != PROXY_VM)
      && PROXY_VM !in mine && mine <= vms.Keys
      && tokens <= verified <= mine && (forall n <- verified :: Walled(n))
      && (!misled ==> Served())
      && (!adopted ==> KeptGuarded())
    }

    /** The bookkeeping started afresh, from a state in which all is well. */
    ghost method Recount()
      requires Valid() && Covered() && Tracked()
      modifies this`misled, this`watch
      ensures Valid() && !misled && KeptUp()
    {
      misled, watch := false, watch.(created := true);
    }

    /** What `rm` and `new` take from an empty listing. */
    ghost method Mislead(name: string)
      requires Valid()
      modifies this`misled
      ensures Valid() && misled == (old(misled) || name in mine)
    {
      misled := misled || name in mine;
    }

    ghost method Adopt(name: string)
      requires Valid()
      modifies this`adopted
      ensures Valid() && adopted == (old(adopted) || (name in vms && Up(name) && !Registered(name) && !Up(PROXY_VM)))
    {
      adopted := adopted || (name in vms && Up(name) && !Registered(name) && !Up(PROXY_VM));
    }

    constructor (proxy: Proxy, shipped: string, rendered: string, direct: bool, linked: bool, foreign: map<string, Status>,
                 deaf: nat, steady: bool, fit: Option<bool>, token: Option<string>,
                 located: string -> bool)
      requires proxy.conf != "" && proxy.gen.files == map[]
      ensures this.proxy == proxy && Valid() && !misled && !adopted && vms == foreign
      ensures this.deaf == deaf && this.steady == steady && this.fit == fit && this.token == token && this.located == located && lapses == 0
    {
      this.proxy, this.shipped, this.rendered, this.direct, this.linked := proxy, shipped, rendered, direct, linked;
      vms, guests, sshLinks, steps, mine, verified, tokens := foreign, map[], {}, {}, {}, {}, {};
      lapses, misled, adopted, watch := 0, false, false, Watch(true, true);
      this.deaf, this.steady, this.fit, this.token, this.located := deaf, steady, fit, token, located;
      new;
      EmptyLedger();
    }

    // --- the backend ---------------------------------------------------------------------------

    /** List: every VM, or none when the listing fails. */
    method List() returns (seen: map<string, Status>)
      modifies this`lapses
      ensures seen == vms || seen == map[]
      ensures lapses == old(lapses) ==> seen == vms
      ensures lapses >= old(lapses) && (old(lapses) < deaf ==> lapses == old(lapses) + 1 && seen == map[])
      ensures steady && deaf <= old(lapses) ==> lapses == old(lapses)
    {
      var answered: bool := *;
      if (answered || steady) && deaf <= lapses {
        return vms;
      }
      lapses := lapses + 1;
      return map[];
    }

    method StatusOf(name: string) returns (status: string)
      modifies this`lapses
      ensures status != "" ==> name in vms && vms[name] == status
      ensures lapses == old(lapses) ==> status == if name in vms then vms[name] else ""
      ensures lapses >= old(lapses) && (steady && deaf <= old(lapses) ==> lapses == old(lapses))
    {
      var seen := List();
      return if name in seen then seen[name] else "";
    }

    method Running(name: string) returns (up: bool)
      modifies this`lapses
      ensures up ==> Up(name)
      ensures lapses == old(lapses) ==> up == Up(name)
      ensures lapses >= old(lapses) && (steady && deaf <= old(lapses) ==> lapses == old(lapses))
    {
      var status := StatusOf(name);
      return status == RUNNING;
    }

    method Exists(name: string) returns (known: bool)
      modifies this`lapses
      ensures known ==> name in vms
      ensures lapses == old(lapses) ==> known == (name in vms)
      ensures lapses >= old(lapses) && (old(lapses) < deaf ==> lapses == old(lapses) + 1 && !known)
      ensures steady && deaf <= old(lapses) ==> lapses == old(lapses)
    {
      var seen := List();
      return name in seen;
    }

    /** Every call that changes a VM, and every config written, looks once more. */
    ghost method Note()
      modifies this`watch
      ensures Noted(old(watch))
    {
      watch := Watch(watch.created && Covered(), watch.registered && Guarded());
    }

    ghost predicate Noted(was: Watch)
      reads this`vms, this`mine, this`watch, proxy.gen
    {
      watch == Watch(was.created && Covered(), was.registered && Guarded())
    }

    /** Create: a name that is taken is refused; a failure may leave a VM behind, up or not.
        What its first boot makes of it is seen only from inside. */
    method Create(name: string) returns (ok: bool)
      modifies this`vms, this`guests, this`watch
      ensures name in old(vms) ==> !ok && vms == old(vms) && guests == old(guests)
      ensures SameBut(old(vms), vms, {name})
      ensures ok ==> vms == old(vms)[name := RUNNING] && name in guests && guests[name].boots == 1
      ensures name !in old(vms) && name in guests && fit.Some? ==> guests[name].secure == fit.value
      ensures forall n :: old(Walled(n)) ==> Walled(n)
      ensures steady && name !in old(vms) ==> ok
      ensures Noted(old(watch))
    {
      ok := *;
      ok := ok || steady;
      if name in vms {
        ok := false;
      } else {
        var boots: nat, secure: bool := *, *;
        if fit.Some? {
          secure := fit.value;
        }
        guests := guests[name := Guest(if ok then 1 else boots, secure)];
        if ok {
          vms := vms[name := RUNNING];
        } else {
          var left: bool, status: Status := *, *;
          if left {
            vms := vms[name := status];
          }
        }
      }
      Note();
    }

    /** Start: the VM is up, or the call failed and it is in any state. One that was down
        boots. */
    method Start(name: string) returns (ok: bool)
      modifies this`vms, this`guests, this`watch
      ensures SameBut(old(vms), vms, {name}) && vms.Keys == old(vms).Keys
      ensures ok ==> Up(name)
      ensures ok && name in old(guests) ==>
                name in guests && guests[name] == Guest(old(guests)[name].boots + (if old(Up(name)) then 0 else 1), old(guests)[name].secure)
      ensures SameInside(old(guests), guests)
      ensures forall n :: old(Walled(n)) ==> Walled(n)
      ensures steady && name in old(vms) ==> ok
      ensures Noted(old(watch))
    {
      ok := *;
      ok := ok || steady;
      if name !in vms {
        ok := false;
      } else {
        var status: Status, booted: bool := *, *;
        booted := (booted || ok) && vms[name] != RUNNING;
        if ok {
          status := RUNNING;
        }
        if name in guests && booted {
          guests := guests[name := Guest(guests[name].boots + 1, guests[name].secure)];
        }
        vms := vms[name := status];
      }
      Note();
    }

    /** Guests that have at most booted again. */
    ghost predicate SameInside(before: map<string, Guest>, after: map<string, Guest>)
    {
      after.Keys == before.Keys && forall n :: n in before ==> after[n].secure == before[n].secure && after[n].boots >= before[n].boots
    }

    /** Stop: the VM is down, or the call failed; it brings nothing up. */
    method Stop(name: string) returns (ok: bool)
      modifies this`vms, this`watch
      ensures SameBut(old(vms), vms, {name}) && vms.Keys == old(vms).Keys
      ensures forall n :: Walled(n) == old(Walled(n))
      ensures ok ==> name in vms && !Up(name)
      ensures Up(name) ==> old(Up(name))
      ensures steady && name in old(vms) ==> ok
      ensures Noted(old(watch))
    {
      ok := *;
      ok := ok || steady;
      if name !in vms {
        ok := false;
      } else {
        var status: Status := *;
        if ok {
          status := STOPPED;
        } else if status == RUNNING && vms[name] != RUNNING {
          status := vms[name];
        }
        vms := vms[name := status];
      }
      Note();
    }

    /** Delete: the VM is gone, or the call failed and it may be gone or in any state it was
        not brought up to. */
    method Delete(name: string) returns (ok: bool)
      modifies this`vms, this`guests, this`watch, this`mine, this`verified, this`tokens
      ensures SameBut(old(vms), vms, {name}) && (ok ==> name !in vms)
      ensures (name in vms ==> name in old(vms)) && (Up(name) ==> old(Up(name)))
      ensures mine == if name in vms then old(mine) else old(mine) - {name}
      ensures verified == old(verified) * mine && tokens == old(tokens) * mine
      ensures steady ==> ok
      ensures Noted(old(watch))
      ensures forall n :: n in vms && old(Walled(n)) ==> Walled(n)
      ensures name !in vms ==> name !in guests
    {
      ok := *;
      ok := ok || steady;
      var gone: bool, status: Status := *, *;
      if ok || gone || name !in vms {
        vms, guests, mine := vms - {name}, guests - {name}, mine - {name};
      } else if status != RUNNING || vms[name] == RUNNING {
        vms := vms[name := status];
      }
      verified, tokens := verified * mine, tokens * mine;
      Note();
    }

    /** A call that changes nothing here and whose success is all that is asked of it. */
    method Works() returns (ok: bool)
      ensures steady ==> ok
    {
      ok := *;
      ok := ok || steady;
    }

    /** A call that does something outside what is modelled. */
    method Do(step: Step) returns (ok: bool)
      modifies this`steps
      ensures steps == old(steps) + if ok then {step} else {}
      ensures steady ==> ok
    {
      ok := *;
      ok := ok || steady;
      if ok {
        steps := steps + {step};
      }
    }

    /** vm/verify.sh, run inside the guest: it fails for want of what it looks for, or anyway. */
    method Verify(name: string) returns (ok: bool)
      ensures ok ==> Walled(name)
      ensures steady ==> ok == Walled(name)
    {
      ok := *;
      ok := (ok || steady) && Walled(name);
    }

    // --- the proxy's coupling ------------------------------------------------------------------

    /** The VM half of Ensure: start the proxy VM, or create it. A fresh one has a disk of its
        own. */
    method BringUp() returns (brought: bool, up: bool)
      requires PROXY_VM !in mine && mine <= vms.Keys
      modifies this`vms, this`lapses, this`watch, proxy`disk, proxy`made, proxy`trace, proxy`loaded, this`guests, this`steps
      ensures up ==> Up(PROXY_VM)
      ensures up && !brought ==> vms == old(vms) && proxy.disk == old(proxy.disk) && proxy.loaded == old(proxy.loaded)
      ensures up && brought ==> !old(Up(PROXY_VM)) && (proxy.Parsed(proxy.disk) ==> proxy.Live())
      ensures old(Up(PROXY_VM)) ==> Up(PROXY_VM)
      ensures old(KeptUp()) ==> KeptUp()
      ensures forall n :: n in vms && old(Walled(n)) ==> Walled(n)
      ensures old(KeptGuarded()) ==> KeptGuarded()
      ensures watch.registered ==> old(watch.registered)
      ensures SameBut(old(vms), vms, {PROXY_VM})
      ensures vms.Keys >= old(vms.Keys)
      ensures lapses >= old(lapses)
      ensures steps >= old(steps)
      ensures PROXY_VM in vms && PROXY_VM !in old(vms) ==> Validated(PROXY_VM) in steps
      ensures steady && deaf <= old(lapses) ==> up && lapses == old(lapses)
    {
      hide ConfigFile, Proxy.Parsed, Proxy.Live;
      var status := StatusOf(PROXY_VM);
      if status == RUNNING {
        return false, true;
      }
      if status != "" {
        up := Start(PROXY_VM);
      } else {
        up := CreateProxy();
      }
      proxy.Boot();
      return up, up;
    }

    method CreateProxy() returns (up: bool)
      requires PROXY_VM !in mine && mine <= vms.Keys
      modifies this`vms, this`watch, proxy`disk, proxy`made, proxy`trace, this`guests, this`steps
      ensures up ==> Up(PROXY_VM) && PROXY_VM !in old(vms)
      ensures PROXY_VM in old(vms) ==> vms == old(vms)
      ensures old(KeptUp()) ==> KeptUp()
      ensures forall n :: n in vms && old(Walled(n)) ==> Walled(n)
      ensures old(KeptGuarded()) ==> KeptGuarded()
      ensures watch.registered ==> old(watch.registered)
      ensures SameBut(old(vms), vms, {PROXY_VM})
      ensures vms.Keys >= old(vms.Keys)
      ensures steady && PROXY_VM !in old(vms) ==> up
      ensures steps >= old(steps)
      ensures PROXY_VM in vms && PROXY_VM !in old(vms) ==> Validated(PROXY_VM) in steps
      // It boots again exactly where its address needs that.
      ensures up ==> PROXY_VM in guests && guests[PROXY_VM].boots == if direct then 2 else 1
    {
      hide ConfigFile, RUNNING, Host.Walled;
      up := Do(Validated(PROXY_VM));
      if up {
        var taken := PROXY_VM in vms;
        up := Create(PROXY_VM);
        if !taken {
          var image: Files := *;
          var made: bool := *;
          proxy.disk, proxy.made := image, made;
          proxy.trace := proxy.trace + [proxy.disk];
        }
        if up && direct {
          up := RebootProxy();
        }
      }
    }

    /** A fresh proxy takes its address at its second boot; nobody runs behind it yet. */
    method RebootProxy() returns (up: bool)
      requires PROXY_VM in vms && PROXY_VM !in mine
      modifies this`vms, this`watch, this`guests
      ensures SameBut(old(vms), vms, {PROXY_VM}) && vms.Keys == old(vms).Keys
      ensures up ==> Up(PROXY_VM)
      ensures forall n :: n in vms && old(Walled(n)) ==> Walled(n)
      ensures up && PROXY_VM in old(guests) ==> PROXY_VM in guests && guests[PROXY_VM].boots == old(guests)[PROXY_VM].boots + 1
      ensures old(KeptUp() && forall n <- mine :: !Up(n)) ==> KeptUp()
      ensures old(KeptGuarded() && forall n :: Registered(n) ==> !Up(n)) ==> KeptGuarded()
      ensures watch.registered ==> old(watch.registered)
      ensures steady ==> up
    {
      hide ConfigFile, RUNNING;
      up := Stop(PROXY_VM);
      if up {
        up := Start(PROXY_VM);
      }
    }

    /** The sync at the end of Ensure: a rejection is an error there. */
    method Serve() returns (applied: bool, err: bool)
      requires proxy.conf != "" && Ledger(proxy.gen.files)
      modifies proxy`lists, proxy`honest, proxy`disk, proxy`made, proxy`trace, proxy`loaded, proxy.gen
      ensures !err ==> proxy.Settled()
      ensures !err && !applied ==> proxy.disk == old(proxy.disk)
      ensures !err ==> (proxy.Live() <==> applied || old(proxy.Live()))
      ensures SameBut(old(proxy.gen.files), proxy.gen.files, {RENDERED_FILE})
      ensures forall n :: Registered(n) <==> old(Registered(n))
      ensures Ledger(proxy.gen.files) && Held(proxy.gen.files) == Held(old(proxy.gen.files))
      ensures proxy.OnlySeeded(old(proxy.lists), proxy.lists)
      ensures old(Calm()) ==> Calm() && !err
    {
      hide Held, IsSidecar, RENDERED_FILE, ConfigFile, Proxy.SafeSince, Proxy.LeftBy, InPlace, UpToCandidate, Put, Injective,
           Proxy.Parsed, Desired, Readable, Proxy.SeedOf, Proxy.OnlySeeded, Proxy.Seedable, Proxy.Live;
      var result, bad := proxy.Sync();
      ArtifactNames(PROXY_VM, PROXY_VM);
      forall n ensures ConfigFile(n) != RENDERED_FILE { ArtifactNames(n, n); }
      SameLedger(old(proxy.gen.files), proxy.gen.files, {RENDERED_FILE});
      if !bad && result == Applied {
        DesiredIsDistinct(proxy.template.value, Held(proxy.gen.files), proxy.lists);
        InPlaceOnceApplied(old(proxy.disk), proxy.disk, proxy.Wanted(), proxy.conf);
      }
      return result == Applied, bad || result == Rejected;
    }

    /** Ensure: the proxy VM exists, runs and has on its disk what the host says. */
    method Ensure() returns (changed: bool, err: bool)
      requires Valid()
      modifies this`vms, this`lapses, this`watch, this`guests, this`steps
      modifies proxy`template, proxy`lists, proxy`honest, proxy`disk, proxy`made, proxy`trace, proxy`loaded, proxy.gen
      ensures Valid()
      ensures !err ==> Up(PROXY_VM) && proxy.Settled()
      ensures !err ==> ConfigFile(PROXY_VM) in proxy.gen.files && proxy.gen.files[ConfigFile(PROXY_VM)] == rendered
      // squid runs on that disk if it did before, or if it booted on one that parses.
      ensures !err && (if old(Up(PROXY_VM)) then old(proxy.Live()) else proxy.Parsed(proxy.disk)) ==> proxy.Live()
      // "Nothing to do" means nothing was done.
      ensures !err && !changed ==> vms == old(vms) && proxy.template == old(proxy.template) && proxy.disk == old(proxy.disk)
      // It takes no VM down: the proxy stays up if it was, and no other VM is touched.
      ensures old(Up(PROXY_VM)) ==> Up(PROXY_VM)
      ensures PROXY_VM in vms && PROXY_VM !in old(vms) ==> Validated(PROXY_VM) in steps
      ensures forall n :: n in vms && old(Walled(n)) ==> Walled(n)
      ensures SameBut(old(vms), vms, {PROXY_VM})
      ensures SameBut(old(proxy.gen.files), proxy.gen.files, {ConfigFile(PROXY_VM), RENDERED_FILE})
      ensures Held(proxy.gen.files) == Held(old(proxy.gen.files)) && forall n :: Registered(n) <==> old(Registered(n))
      ensures proxy.OnlySeeded(old(proxy.lists), proxy.lists)
      ensures old(proxy.template).Some? ==> proxy.template == old(proxy.template)
      ensures lapses >= old(lapses)
      ensures steps >= old(steps)
      ensures watch.registered ==> old(watch.registered)
      ensures old(Fair()) ==> Fair() && !err && lapses == old(lapses)
    {
      hide Ledger, Held, IsSidecar, ConfigFile, RENDERED_FILE, InPlace, Desired, Readable, VMName, Proxy.SeedOf, Proxy.OnlySeeded,
           Proxy.Ready, RUNNING, Proxy.Live, Proxy.Parsed, Proxy.Seedable, PROXY_VM, Host.Covered, Host.Calm, Host.Walled, SameBut, Host.Up;
      var seeded, wrote := Render();
      proxy.SeededNothing(proxy.lists);
      ghost var files := proxy.gen.files;
      SameAsItself(vms, {PROXY_VM});
      assert {ConfigFile(PROXY_VM)} + {RENDERED_FILE} == {ConfigFile(PROXY_VM), RENDERED_FILE};
      SameAsItself(files, {RENDERED_FILE});
      SameButTwice(old(proxy.gen.files), files, files, {ConfigFile(PROXY_VM)}, {RENDERED_FILE});
      if !wrote {
        return seeded, true;
      }
      changed, err := Raise();
      OtherFileStays(files, proxy.gen.files);
      SameButTwice(old(proxy.gen.files), files, proxy.gen.files, {ConfigFile(PROXY_VM)}, {RENDERED_FILE});
      changed := changed || seeded;
    }

    /** The VM half: the proxy up, then synced. */
    method Raise() returns (changed: bool, err: bool)
      requires Valid()
      modifies this`vms, this`lapses, this`watch, this`guests, this`steps
      modifies proxy`lists, proxy`honest, proxy`disk, proxy`made, proxy`trace, proxy`loaded, proxy.gen
      ensures Valid()
      ensures !err ==> Up(PROXY_VM) && proxy.Settled()
      ensures !err && (if old(Up(PROXY_VM)) then old(proxy.Live()) else proxy.Parsed(proxy.disk)) ==> proxy.Live()
      ensures !err && !changed ==> vms == old(vms) && proxy.disk == old(proxy.disk)
      ensures old(Up(PROXY_VM)) ==> Up(PROXY_VM)
      ensures PROXY_VM in vms && PROXY_VM !in old(vms) ==> Validated(PROXY_VM) in steps
      ensures forall n :: n in vms && old(Walled(n)) ==> Walled(n)
      ensures SameBut(old(vms), vms, {PROXY_VM})
      ensures SameBut(old(proxy.gen.files), proxy.gen.files, {RENDERED_FILE})
      ensures Held(proxy.gen.files) == Held(old(proxy.gen.files)) && forall n :: Registered(n) <==> old(Registered(n))
      ensures proxy.OnlySeeded(old(proxy.lists), proxy.lists)
      ensures lapses >= old(lapses)
      ensures steps >= old(steps)
      ensures watch.registered ==> old(watch.registered)
      ensures old(Fair()) ==> Fair() && !err && lapses == old(lapses)
    {
      hide Ledger, Held, IsSidecar, ConfigFile, RENDERED_FILE, InPlace, Desired, Readable, VMName, Proxy.SeedOf, Proxy.OnlySeeded,
           Proxy.Ready, RUNNING, Proxy.Live, Proxy.Parsed, Proxy.Seedable, PROXY_VM, Host.Covered, Host.Calm, Host.Walled, SameBut;
      proxy.SeededNothing(proxy.lists);
      SameAsItself(proxy.gen.files, {RENDERED_FILE});
      LedgerIsReadable(proxy.gen.files);
      var brought, up := BringUp();
      if !up {
        return brought, true;
      }
      changed, err := Serve();
      changed := changed || brought;
    }

    /** The host half of Ensure: a template to seed from, and the proxy VM's own config. */
    method Render() returns (seeded: bool, ok: bool)
      requires Valid()
      modifies proxy`template, proxy.gen
      ensures Valid()
      ensures !seeded ==> proxy.template == old(proxy.template)
      ensures old(proxy.template).Some? ==> proxy.template == old(proxy.template)
      ensures ok ==> proxy.template.Some? && ConfigFile(PROXY_VM) in proxy.gen.files && proxy.gen.files[ConfigFile(PROXY_VM)] == rendered
      ensures SameBut(old(proxy.gen.files), proxy.gen.files, {ConfigFile(PROXY_VM)})
      ensures Held(proxy.gen.files) == Held(old(proxy.gen.files)) && forall n :: Registered(n) <==> old(Registered(n))
      ensures old(Calm()) ==> Calm() && ok
    {
      hide Ledger, Held, IsSidecar, ConfigFile, Readable, VMName, RUNNING, Proxy.Seedable;
      ArtifactNames(PROXY_VM, PROXY_VM);
      forall n ensures n != PROXY_VM ==> ConfigFile(n) != ConfigFile(PROXY_VM) { ArtifactNames(n, PROXY_VM); }
      SameLedger(proxy.gen.files, proxy.gen.files, {});
      var failed;
      seeded, failed := proxy.SeedAllowlist(shipped);
      ok := Works();
      ok := ok && !failed;
      if ok {
        proxy.gen.files := proxy.gen.files[ConfigFile(PROXY_VM) := rendered];
        SameLedger(old(proxy.gen.files), proxy.gen.files, {ConfigFile(PROXY_VM)});
        LedgerIsReadable(proxy.gen.files);
      }
    }

    /** StopIfIdle: the proxy goes down only after a listing in which no registered VM runs.
        Anything uncertain leaves it up. `readable` is whether the generated directory can be
        read. */
    method StopIfIdle(readable: bool) returns (ok: bool)
      modifies this`vms, this`lapses, this`watch
      ensures vms != old(vms) ==> old(Up(PROXY_VM)) && forall n :: Registered(n) ==> !Up(n)
      ensures SameBut(old(vms), vms, {PROXY_VM}) && vms.Keys == old(vms).Keys
      ensures forall n :: Up(n) ==> old(Up(n))
      ensures forall n :: n != PROXY_VM ==> Up(n) == old(Up(n))
      ensures old(Served()) ==> Served()
      ensures old(KeptGuarded()) ==> KeptGuarded()
      // When nothing was uncertain, it stays up exactly for those it serves.
      ensures ok && readable && lapses == old(lapses) && old(Up(PROXY_VM)) ==>
                (Up(PROXY_VM) <==> exists n :: Registered(n) && Up(n))
      ensures lapses >= old(lapses)
      ensures steady && deaf <= old(lapses) ==> ok && lapses == old(lapses)
    {
      hide ConfigFile;
      var up := Running(PROXY_VM);
      if !up {
        return true;
      }
      var listing := List();
      if listing == map[] || !readable {
        return true;
      }
      assert listing == vms;
      var running: set<string> := {};
      var left := listing.Keys;
      while left != {}
        invariant left <= listing.Keys
        invariant forall n :: n in running <==> n in listing && n !in left && listing[n] == RUNNING
        decreases left
      {
        var n :| n in left;
        left := left - {n};
        if listing[n] == RUNNING {
          running := running + {n};
        }
      }
      var serving := AnyServed(running);
      if serving {
        return true;
      }
      assert forall n :: Registered(n) ==> !Up(n);
      ok := Stop(PROXY_VM);
    }

    /** The scan of the generated directory: whether a registered VM is among these. */
    method AnyServed(running: set<string>) returns (any: bool)
      ensures any <==> exists n :: Registered(n) && n in running
    {
      hide ConfigFile;
      var entries := proxy.gen.files.Keys;
      while entries != {}
        invariant entries <= proxy.gen.files.Keys
        invariant forall n :: Registered(n) && ConfigFile(n) !in entries ==> n !in running
        decreases entries
      {
        var entry :| entry in entries;
        entries := entries - {entry};
        var name := CutSuffix(entry);
        CutSuffixIsName(entry);
        if name.Some? && name.value != PROXY_VM {
          if name.value in running {
            assert Registered(name.value);
            return true;
          }
        }
      }
      return false;
    }

    // --- the commands ---------------------------------------------------------------------------

    /** A sandbox started behind a proxy that runs. */
    method Wake(name: string) returns (ok: bool)
      requires Valid() && Up(PROXY_VM) && name != PROXY_VM
      modifies this`vms, this`guests, this`watch
      ensures Valid() && Up(PROXY_VM)
      ensures SameBut(old(vms), vms, {name}) && vms.Keys == old(vms).Keys
      ensures ok ==> Up(name)
      ensures forall n :: n in vms && old(Walled(n)) ==> Walled(n)
      ensures watch == old(watch)
      ensures steady && name in old(vms) ==> ok
    {
      hide Ledger, Held, ConfigFile, VMName, Host.Walled, Host.Tracked;
      ok := Start(name);
    }

    /** mountedRepo: the sidecar names the repo, or else the rendered config does. */
    predicate Mounted(name: string)
      reads proxy.gen
    {
      MountedIn(proxy.gen.files, name)
    }

    predicate MountedIn(files: Dir, name: string)
    {
      || (RepoFile(name) in files && NamesRepo(files[RepoFile(name)]))
      || (ConfigFile(name) in files && located(files[ConfigFile(name)]))
    }

    /** What stands in the way of the hooks being set again. */
    predicate Resettable(name: string)
      reads proxy`overlay, proxy.gen
    {
      Mounted(name) ==> proxy.overlay(name).Some?
    }

    method BringUpSandbox(name: string) returns (ok: bool)
      requires Valid() && Up(PROXY_VM) && name != PROXY_VM
      modifies this`vms, this`lapses, this`watch, this`guests, this`steps
      ensures Valid()
      ensures ok ==> Up(name)
      ensures forall n :: n in vms && old(Walled(n)) ==> Walled(n)
      ensures steps >= old(steps)
      ensures ok && Mounted(name) ==> Hooks(name) in steps
      ensures Up(name) && !old(Up(name)) && Mounted(name) ==> Hooks(name) in steps
      ensures ok && lapses == old(lapses) && old(Up(name)) ==> Readied(name) in steps
      ensures Up(PROXY_VM) && SameBut(old(vms), vms, {name}) && vms.Keys == old(vms).Keys
      ensures watch == old(watch)
      ensures lapses >= old(lapses)
      ensures steady && deaf <= old(lapses) && name in old(vms) && Resettable(name) ==> ok && lapses == old(lapses)
      ensures ok ==> Resettable(name)
    {
      hide Host.Valid, ConfigFile, RepoFile, PROXY_VM, NamesRepo, Host.MountedIn, Host.Walled, RUNNING, SameBut;
      SameAsItself(vms, {name});
      ok := true;
      if Mounted(name) {
        ok := proxy.overlay(name).Some?;
        if ok {
          ok := Do(Hooks(name));
        }
      }
      if ok {
        var up := Running(name);
        if up {
          ok := Do(Readied(name));
        } else {
          ok := Wake(name);
        }
      }
    }

    /** startSandbox: the proxy first. */
    method StartSandbox(name: string) returns (ok: bool)
      requires Valid() && name != PROXY_VM
      modifies this`vms, this`lapses, this`watch, this`guests, this`steps
      modifies proxy`template, proxy`lists, proxy`honest, proxy`disk, proxy`made, proxy`trace, proxy`loaded, proxy.gen
      ensures Valid()
      ensures ok ==> Up(name) && Up(PROXY_VM)
      ensures ok ==> proxy.Settled()
      ensures ok && (if old(Up(PROXY_VM)) then old(proxy.Live()) else proxy.Parsed(proxy.disk)) ==> proxy.Live()
      ensures old(Up(PROXY_VM)) ==> Up(PROXY_VM)
      ensures SameBut(old(vms), vms, {name, PROXY_VM})
      ensures Held(proxy.gen.files) == Held(old(proxy.gen.files)) && forall n :: Registered(n) <==> old(Registered(n))
      ensures proxy.OnlySeeded(old(proxy.lists), proxy.lists)
      ensures lapses >= old(lapses)
      ensures old(Fair()) && name in old(vms) && Resettable(name) ==> Fair() && ok && lapses == old(lapses)
      ensures steps >= old(steps)
      ensures ok && Mounted(name) ==> Hooks(name) in steps
      ensures Up(name) && !old(Up(name)) && Mounted(name) ==> Hooks(name) in steps
      ensures ok && lapses == old(lapses) && old(Up(name)) ==> Readied(name) in steps
      ensures forall n :: n in vms && old(Walled(n)) ==> Walled(n)
      ensures ok ==> Resettable(name)
    {
      hide Ledger, Held, IsSidecar, ConfigFile, RENDERED_FILE, InPlace, Desired, Readable, VMName, Proxy.Ready, Proxy.OnlySeeded,
           PROXY_VM, RUNNING, Host.Registered, Proxy.Live, Proxy.Parsed, Host.Calm, Host.Walled, Host.Mounted, Host.Valid, SameBut;
      SameAsItself(vms, {name, PROXY_VM});
      SameAsItself(vms, {PROXY_VM});
      SameVM(name, vms);
      assert {PROXY_VM} + {name} == {name, PROXY_VM};
      proxy.SeededNothing(proxy.lists);
      ValidLedger();
      SameAsItself(proxy.gen.files, {ConfigFile(PROXY_VM), RENDERED_FILE});
      SameHooks(name, proxy.gen.files);
      ok := Exists(name);
      if ok {
        var changed, err := Ensure();
        ok := !err;
        SameHooks(name, old(proxy.gen.files));
        ghost var behind := vms;
        SameVM(name, old(vms));
        SameAsItself(behind, {name});
        SameButTwice(old(vms), behind, behind, {PROXY_VM}, {name});
        if ok {
          ok := BringUpSandbox(name);
          SameButTwice(old(vms), behind, vms, {PROXY_VM}, {name});
        }
      }
    }

    lemma SameVM(name: string, was: map<string, Status>)
      requires name != PROXY_VM && SameBut(was, vms, {PROXY_VM})
      ensures Up(name) == (name in was && was[name] == RUNNING) && (name in vms <==> name in was)
    {
    }

    lemma ValidLedger()
      requires Valid()
      ensures Readable(proxy.gen.files) && Ledger(proxy.gen.files)
    {
    }

    /** What names the mounted repo is none of the proxy's files. */
    lemma SameHooks(name: string, was: Dir)
      requires name != PROXY_VM && SameBut(was, proxy.gen.files, {ConfigFile(PROXY_VM), RENDERED_FILE})
      ensures Mounted(name) == MountedIn(was, name)
    {
      ArtifactNames(name, PROXY_VM);
      ArtifactNames(PROXY_VM, name);
    }

    method StartCommand(name: string) returns (ok: bool)
      requires Valid() && VMName(name)
      modifies this`vms, this`lapses, this`watch, this`guests, this`steps
      modifies proxy`template, proxy`lists, proxy`honest, proxy`disk, proxy`made, proxy`trace, proxy`loaded, proxy.gen
      ensures Valid()
      ensures ok ==> name != PROXY_VM && Up(name) && Up(PROXY_VM)
      ensures old(Up(PROXY_VM)) ==> Up(PROXY_VM)
      ensures SameBut(old(vms), vms, {name, PROXY_VM})
      ensures Held(proxy.gen.files) == Held(old(proxy.gen.files)) && forall n :: Registered(n) <==> old(Registered(n))
      ensures proxy.OnlySeeded(old(proxy.lists), proxy.lists)
      ensures lapses >= old(lapses)
      ensures old(Fair()) && name in old(vms) && name != PROXY_VM && Resettable(name) ==> Fair() && ok && lapses == old(lapses)
      ensures ok && Mounted(name) ==> Hooks(name) in steps
      ensures ok && lapses == old(lapses) && old(Up(name)) ==> Readied(name) in steps
      ensures ok ==> Resettable(name)
    {
      hide Ledger, Held, Readable, VMName, PROXY_VM, Proxy.OnlySeeded, Proxy.Ready, InPlace, Proxy.Wanted, Host.Calm, Proxy.Live,
           Proxy.Parsed, Host.Registered;
      LedgerIsReadable(proxy.gen.files);
      proxy.SeededNothing(proxy.lists);
      SameAsItself(vms, {name, PROXY_VM});
      steps := {};
      if name == PROXY_VM {
        return false;
      }
      ok := StartSandbox(name);
    }

    /** cmdShell: a stopped sandbox is started the way `start` does it. */
    method Shell(name: string) returns (ok: bool)
      requires Valid() && VMName(name)
      modifies this`vms, this`lapses, this`watch, this`guests, this`steps
      modifies proxy`template, proxy`lists, proxy`honest, proxy`disk, proxy`made, proxy`trace, proxy`loaded, proxy.gen
      ensures Valid()
      ensures ok ==> name != PROXY_VM && Up(name)
      ensures ok && ((name in mine && old(Covered())) || (Registered(name) && old(Guarded()))) ==> Up(PROXY_VM)
      ensures old(Up(PROXY_VM)) ==> Up(PROXY_VM)
      ensures Held(proxy.gen.files) == Held(old(proxy.gen.files))
      ensures proxy.OnlySeeded(old(proxy.lists), proxy.lists)
      ensures lapses >= old(lapses)
      ensures ok ==> Entered(name) in steps
      ensures ok && !old(Up(name)) && Mounted(name) ==> Hooks(name) in steps
      // One that is up is entered as it is; one that is down is brought up.
      ensures lapses == old(lapses) && old(Up(name)) ==> vms == old(vms) && proxy.disk == old(proxy.disk) && proxy.lists == old(proxy.lists)
      ensures old(Fair()) && name in old(vms) && name != PROXY_VM && Resettable(name) ==> ok && lapses == old(lapses)
    {
      hide Ledger, Held, Readable, VMName, PROXY_VM, Proxy.OnlySeeded, Proxy.Ready, InPlace, Proxy.Wanted, Host.Calm, Proxy.Live,
           Proxy.Parsed, Host.Registered;
      LedgerIsReadable(proxy.gen.files);
      proxy.SeededNothing(proxy.lists);
      steps := {};
      if name == PROXY_VM {
        return false;
      }
      ok := Running(name);
      if !ok {
        ok := StartSandbox(name);
      }
      if ok {
        ok := Do(Entered(name));
      }
    }

    method StopCommand(name: string, readable: bool) returns (ok: bool)
      requires Valid() && VMName(name)
      modifies this`vms, this`lapses, this`watch
      ensures Valid()
      ensures SameBut(old(vms), vms, {name, PROXY_VM}) && vms.Keys == old(vms).Keys
      ensures forall n :: Up(n) ==> old(Up(n))
      ensures ok ==> name != PROXY_VM && name in vms
      ensures ok && lapses == old(lapses) ==> !Up(name)
      ensures ok && lapses == old(lapses) && readable && old(Up(PROXY_VM)) ==>
                (Up(PROXY_VM) <==> exists n :: Registered(n) && Up(n))
      ensures lapses >= old(lapses)
      ensures steady && deaf <= old(lapses) && name in old(vms) && name != PROXY_VM ==> ok && lapses == old(lapses)
    {
      hide Ledger, Held, Readable, VMName, PROXY_VM, ConfigFile, RUNNING, Host.Up;
      if name == PROXY_VM {
        return false;
      }
      ok := Halt(name);
      if ok {
        ok := StopIfIdle(readable);
      }
    }

    method Halt(name: string) returns (ok: bool)
      requires name != PROXY_VM
      modifies this`vms, this`lapses, this`watch
      ensures SameBut(old(vms), vms, {name}) && vms.Keys == old(vms).Keys
      ensures forall n :: Up(n) ==> old(Up(n))
      ensures Up(PROXY_VM) == old(Up(PROXY_VM))
      ensures ok ==> name in vms
      ensures ok && lapses == old(lapses) ==> !Up(name)
      ensures old(Served()) ==> Served()
      ensures old(KeptGuarded()) ==> KeptGuarded()
      ensures lapses >= old(lapses)
      ensures steady && deaf <= old(lapses) && name in old(vms) ==> ok && lapses == old(lapses)
    {
      hide ConfigFile, PROXY_VM, RUNNING;
      ok := Exists(name);
      if ok {
        var up := Running(name);
        if up {
          ok := Stop(name);
        }
      }
    }

    // --- new ----------------------------------------------------------------------------------------

    /** reconcileAllowlist: a list that outlived its VM follows the config. */
    method ReconcileAllowlist(name: string) returns (ok: bool)
      modifies proxy`lists, proxy`template
      ensures old(proxy.template).Some? ==> proxy.template == old(proxy.template)
      ensures name !in old(proxy.lists) || !ok ==> proxy.lists == old(proxy.lists)
      ensures ok && name in old(proxy.lists) ==> Follows(name, old(proxy.lists)[name], proxy.lists, old(proxy.lists))
      ensures proxy.steady && proxy.Seedable(name) ==> ok
      ensures ok && name in old(proxy.lists) ==> Reconcilable(name)
    {
      hide SeedLines, GroupsFrom, ReconciledText, ReconcileChanges, ScanLines, BodyLines;
      if name !in proxy.lists {
        return true;
      }
      var seeded, err := proxy.SeedAllowlist(shipped);
      if err {
        return false;
      }
      var changes := proxy.ReconcileVMAllowlist(name);
      return changes.Some?;
    }

    ghost predicate Reconcilable(name: string)
      reads proxy`template, proxy`overlay
    {
      proxy.template.Some? && proxy.overlay(name).Some? && GroupsFrom(ScanLines(proxy.template.value), None).Ok?
    }

    /** The lists are what they were, with one brought into line with the VM's config. */
    ghost predicate Follows(name: string, body: string, now: map<string, string>, was: map<string, string>)
      reads proxy`template, proxy`overlay
    {
      && proxy.template.Some? && proxy.overlay(name).Some?
      && GroupsFrom(ScanLines(proxy.template.value), None).Ok?
      && now == was[name := ReconciledText(body, GroupsFrom(ScanLines(proxy.template.value), None).value, proxy.overlay(name).value)]
    }

    /** The config offer: what an edit leaves is what the VM's settings resolve to. */
    method EditSettings(name: string, settings: Option<Features>) returns (ok: bool)
      modifies proxy`overlay
      ensures proxy.overlay(name) == settings && forall n :: n != name ==> proxy.overlay(n) == old(proxy.overlay)(n)
      ensures steady ==> ok
    {
      var was := proxy.overlay;
      proxy.overlay := n => if n == name then settings else was(n);
      ok := Works();
    }

    /** The allowlist offer: a list to open, and the text the editor leaves in it. */
    method EditList(name: string, text: string) returns (ok: bool)
      modifies proxy`lists, proxy`template
      ensures old(proxy.template).Some? ==> proxy.template == old(proxy.template)
      ensures SameBut(old(proxy.lists), proxy.lists, {name})
      ensures ok ==> proxy.lists == old(proxy.lists)[name := text]
      ensures steady && proxy.steady && proxy.Seedable(name) ==> ok
    {
      hide Proxy.SeedOf;
      var seeded, err := proxy.SeedAllowlist(shipped);
      if err {
        return false;
      }
      var body := proxy.EnsureVMAllowlist(name);
      if body.None? {
        return false;
      }
      proxy.lists := proxy.lists[name := text];
      ok := Works();
    }

    /** reviewPlan: the offers. `settings` are the features an edit of the config leaves, and
        `text` what an edit of the allowlist leaves; each None when the offer is declined. */
    method ReviewPlan(name: string, noEdit: bool, settings: Option<Option<Features>>, text: Option<string>) returns (ok: bool)
      modifies proxy`lists, proxy`template, proxy`overlay, this`steps
      ensures steps >= old(steps)
      ensures old(proxy.template).Some? ==> proxy.template == old(proxy.template)
      ensures forall n :: n != name ==> proxy.overlay(n) == old(proxy.overlay)(n)
      ensures noEdit || settings.None? ==> proxy.overlay == old(proxy.overlay)
      ensures ok && !noEdit && settings.Some? ==> proxy.overlay(name) == settings.value
      ensures SameBut(old(proxy.lists), proxy.lists, {name})
      // Nothing is offered or reconciled before the plan was shown.
      ensures proxy.overlay != old(proxy.overlay) || proxy.lists != old(proxy.lists) ==> Planned(name) in steps
      ensures ok && (noEdit || text.None?) ==>
                if name in old(proxy.lists) then Follows(name, old(proxy.lists)[name], proxy.lists, old(proxy.lists))
                else proxy.lists == old(proxy.lists)
      ensures ok && !noEdit && text.Some? ==> name in proxy.lists && proxy.lists[name] == text.value
      // A list that is there is reconciled first, or nothing of the rest happens.
      ensures ok && name in old(proxy.lists) ==> Reconcilable(name)
      ensures steady && proxy.steady && proxy.Seedable(name) ==> ok
    {
      hide Proxy.SeedOf, SeedLines, ScanLines, ReconciledText, GroupsFrom;
      SameAsItself(proxy.lists, {name});
      ok := Do(Planned(name));
      if ok && !noEdit && settings.Some? {
        ok := EditSettings(name, settings.value);
      }
      if ok {
        ok := ReconcileAllowlist(name);
        if ok && !noEdit && text.Some? {
          ok := EditList(name, text.value);
        }
      }
    }

    /** The port first, so that config and ledger cannot disagree. */
    method TakePort(name: string) returns (ok: bool)
      requires Ledger(proxy.gen.files)
      modifies proxy.gen
      ensures Ledger(proxy.gen.files)
      ensures SameBut(old(proxy.gen.files), proxy.gen.files, {PortFile(name)})
      ensures var was, now := Held(old(proxy.gen.files)), Held(proxy.gen.files);
              || now == was
              || (name !in was && LeastFree(was.Values, PORT_MIN).Some? && now == was[name := LeastFree(was.Values, PORT_MIN).value])
      ensures if ok then name in Held(proxy.gen.files) else proxy.gen.files == old(proxy.gen.files)
      ensures forall n :: Registered(n) <==> old(Registered(n))
      ensures proxy.gen.steady && old(CanAllocate(name)) ==> ok
    {
      hide Held, Readable, Decimal, IsSidecar, ConfigFile, PortFile, Injective;
      ghost var was := proxy.gen.files;
      LedgerIsReadable(was);
      var port := proxy.gen.AllocatePort(name);
      if port.Ok? && name !in Held(was) {
        AllocationKeepsLedger(was, name, port.value);
      }
      forall n ensures ConfigFile(n) != PortFile(name) { ArtifactNames(n, name); }
      return port.Ok?;
    }

    /** The rendered config and the repo sidecar. */
    method WriteArtifacts(name: string, config: string, repo: string) returns (ok: bool)
      requires Ledger(proxy.gen.files) && name != PROXY_VM
      modifies proxy.gen, this`watch
      ensures Ledger(proxy.gen.files) && Held(proxy.gen.files) == Held(old(proxy.gen.files))
      ensures SameBut(old(proxy.gen.files), proxy.gen.files, {ConfigFile(name), RepoFile(name)})
      ensures ok ==> Registered(name) && proxy.gen.files[ConfigFile(name)] == config
                     && RepoFile(name) in proxy.gen.files && proxy.gen.files[RepoFile(name)] == repo + "\n"
      ensures forall n :: old(Registered(n)) ==> Registered(n)
      ensures forall n :: n != name && Registered(n) ==> old(Registered(n))
      ensures old(KeptUp()) ==> KeptUp()
      ensures old(KeptGuarded()) && (old(Registered(name)) || !Up(name) || Up(PROXY_VM)) ==> KeptGuarded()
      ensures steady ==> ok
      ensures steady && Up(name) && !Up(PROXY_VM) ==> !watch.registered
    {
      hide Held, Readable, IsSidecar, ConfigFile, RepoFile, Host.Up;
      ArtifactNames(name, name);
      forall n ensures n != name ==> ConfigFile(n) != ConfigFile(name) && ConfigFile(n) != RepoFile(name) { ArtifactNames(n, name); }
      ghost var was := proxy.gen.files;
      SameLedger(was, was, {});
      ok := Works();
      if ok {
        proxy.gen.files := proxy.gen.files[ConfigFile(name) := config];
        SameLedger(was, proxy.gen.files, {ConfigFile(name)});
        Note();
        ok := Works();
        if ok {
          proxy.gen.files := proxy.gen.files[RepoFile(name) := repo + "\n"];
          SameLedger(was, proxy.gen.files, {ConfigFile(name), RepoFile(name)});
        }
      }
    }

    /** The host half of a create: the port, the rendered config, the repo sidecar, validated. */
    method Prepare(name: string, config: string, repo: string) returns (ok: bool)
      requires Valid() && VMName(name) && name != PROXY_VM
      requires !adopted ==> Registered(name) || !Up(name) || Up(PROXY_VM)
      modifies proxy.gen, this`watch, this`steps
      ensures Valid()
      ensures SameBut(old(proxy.gen.files), proxy.gen.files, Artifacts(name))
      ensures var was, now := Held(old(proxy.gen.files)), Held(proxy.gen.files);
              || now == was
              || (name !in was && LeastFree(was.Values, PORT_MIN).Some? && now == was[name := LeastFree(was.Values, PORT_MIN).value])
      ensures ok ==> name in Held(proxy.gen.files) && Registered(name)
                     && proxy.gen.files[ConfigFile(name)] == config
                     && RepoFile(name) in proxy.gen.files && proxy.gen.files[RepoFile(name)] == repo + "\n"
      ensures name !in Held(proxy.gen.files) ==> proxy.gen.files == old(proxy.gen.files)
      ensures forall n :: old(Registered(n)) ==> Registered(n)
      ensures forall n :: n != name && Registered(n) ==> old(Registered(n))
      ensures old(KeptUp()) ==> KeptUp()
      ensures old(KeptGuarded()) && (old(Registered(name)) || !Up(name) || Up(PROXY_VM)) ==> KeptGuarded()
      ensures steady && proxy.gen.steady && old(CanAllocate(name)) ==> ok
      ensures steady && proxy.gen.steady && old(CanAllocate(name)) && Up(name) && !Up(PROXY_VM) ==> !watch.registered
      ensures steps >= old(steps) && (ok ==> Validated(name) in steps)
    {
      hide Ledger, Held, Readable, IsSidecar, ConfigFile, RepoFile, PortFile, Host.Up, Host.CanAllocate, Host.Walled, VMName, PROXY_VM,
           Host.Covered;
      LedgerIsReadable(proxy.gen.files);
      ok := TakePort(name);
      if ok {
        ok := WriteArtifacts(name, config, repo);
        if ok {
          ok := Do(Validated(name));
        }
      }
    }

    /** A port is there for this VM. */
    ghost predicate CanAllocate(name: string)
      reads proxy.gen
    {
      Readable(proxy.gen.files) &&
      (name in Held(proxy.gen.files) || LeastFree(Held(proxy.gen.files).Values, PORT_MIN).Some?)
    }

    /** First boot over an open network, then the reboot that raises the wall. */
    method Boot(name: string) returns (ok: bool)
      requires PROXY_VM !in mine && mine <= vms.Keys && name != PROXY_VM && Up(PROXY_VM)
      modifies this`vms, this`watch, this`mine, this`guests
      ensures mine == if name in vms && name !in old(vms) then old(mine) + {name} else old(mine)
      ensures mine <= vms.Keys && Up(PROXY_VM) && SameBut(old(vms), vms, {name})
      ensures ok ==> name !in old(vms) && name in vms && Up(name)
      ensures forall n :: n in vms && old(Walled(n)) ==> Walled(n)
      ensures ok ==> name in guests && guests[name].boots == 2
      ensures name !in old(vms) && name in guests && fit.Some? ==> guests[name].secure == fit.value
      ensures name in old(vms) ==> guests == old(guests)
      ensures name in old(vms) ==> !ok && vms == old(vms)
      ensures watch == old(watch)
      ensures steady && name !in old(vms) ==> ok
    {
      hide ConfigFile, RUNNING;
      ghost var taken := name in vms;
      if !taken {
        mine := mine + {name};
      }
      ok := Create(name);
      if name !in vms {
        mine := mine - {name};
      }
      if ok {
        ok := Reboot(name);
      }
    }

    method Reboot(name: string) returns (ok: bool)
      requires name in vms && name != PROXY_VM && Up(PROXY_VM)
      modifies this`vms, this`watch, this`guests
      ensures vms.Keys == old(vms).Keys && Up(PROXY_VM) && SameBut(old(vms), vms, {name})
      ensures ok ==> Up(name)
      ensures forall n :: n in vms && old(Walled(n)) ==> Walled(n)
      ensures ok && name in old(guests) ==> name in guests && guests[name].boots == old(guests)[name].boots + 1
      ensures SameInside(old(guests), guests)
      ensures watch == old(watch)
      ensures steady ==> ok
    {
      hide ConfigFile;
      ok := Stop(name);
      if ok {
        ok := Start(name);
      }
    }

    /** Verification, and only then the token. */
    method Admit(name: string) returns (ok: bool)
      requires name in mine && tokens <= verified <= mine && forall n <- verified :: Walled(n)
      modifies this`verified, this`tokens, this`sshLinks
      ensures tokens <= verified <= mine && forall n <- verified :: Walled(n)
      ensures verified <= old(verified) + {name} && tokens <= old(tokens) + {name}
      // A check that fails is the end of it: nothing is sent into the VM.
      ensures !Walled(name) ==> !ok && verified == old(verified) && tokens == old(tokens)
      ensures ok ==> name in verified && (linked ==> name in sshLinks)
      ensures ok && token.Some? ==> name in tokens && !Unwritable(token.value)
      ensures token.None? || Unwritable(token.value) ==> tokens == old(tokens)
      ensures forall n :: n != name ==> (n in sshLinks <==> n in old(sshLinks))
      ensures steady && Walled(name) && (token.Some? ==> !Unwritable(token.value)) ==> ok
    {
      if linked {
        ok := Works();
        if !ok {
          return false;
        }
        sshLinks := sshLinks + {name};
      }
      ok := Verify(name);
      if !ok {
        return false;
      }
      verified := verified + {name};
      ok := InjectToken(name);
    }

    /** injectToken: no token is no error; one that cannot be written as it is is. */
    method InjectToken(name: string) returns (ok: bool)
      modifies this`tokens
      ensures tokens == old(tokens) || tokens == old(tokens) + {name}
      ensures token.None? ==> ok && tokens == old(tokens)
      ensures token.Some? && Unwritable(token.value) ==> !ok && tokens == old(tokens)
      ensures ok && token.Some? ==> name in tokens
      ensures steady && (token.Some? ==> !Unwritable(token.value)) ==> ok
    {
      if token.None? {
        return true;
      }
      if '"' in token.value || '\\' in token.value {
        return false;
      }
      ok := Works();
      var sent: bool := *;
      if ok || sent {
        tokens := tokens + {name};
      }
    }

    /** A text that a double-quoted line of ~/.profile would not hold as it is. */
    predicate Unwritable(text: string)
    {
      exists c <- text :: c == '"' || c == '\\'
    }

    /** The VMs come out secure, and the token is one that can be written. */
    predicate Fit()
    {
      fit == Some(true) && (token.Some? ==> !Unwritable(token.value))
    }

    /** The VM half of a create. */
    method Build(name: string) returns (ok: bool)
      requires Valid() && name != PROXY_VM && Registered(name) && Up(PROXY_VM)
      modifies this`vms, this`watch, this`mine, this`verified, this`tokens, this`sshLinks, this`guests
      ensures Valid() && Up(PROXY_VM)
      ensures SameBut(old(vms), vms, {name})
      ensures ok ==> name !in old(vms) && name in mine && Up(name) && name in verified
      ensures mine == if name in vms && name !in old(vms) then old(mine) + {name} else old(mine)
      ensures forall n :: n != name ==> (n in sshLinks <==> n in old(sshLinks))
      ensures watch.registered ==> old(watch.registered)
      ensures name in old(vms) ==> !ok && vms == old(vms)
      ensures steady && Fit() && name !in old(vms) ==> ok
      ensures verified <= old(verified) + {name} && tokens <= old(tokens) + {name}
      ensures ok ==> Walled(name) && (linked ==> name in sshLinks) && (token.Some? ==> name in tokens)
      ensures fit == Some(false) ==> !ok && tokens == old(tokens)
      ensures forall n :: n in vms && old(Walled(n)) ==> Walled(n)
    {
      hide Ledger, Held, IsSidecar, ConfigFile, PROXY_VM, RUNNING, VMName, Readable, Host.Up, SameBut;
      ok := Boot(name);
      if ok {
        ok := Admit(name);
      }
    }

    method New(name: string, noEdit: bool, settings: Option<Option<Features>>, text: Option<string>, config: string, repo: string)
      returns (ok: bool)
      requires Valid() && VMName(name)
      modifies this, proxy, proxy.gen
      ensures Valid()
      ensures ok ==> name !in old(vms) && name in mine && name in verified && Up(name) && Up(PROXY_VM)
      // It lands with a port and with its own list on the proxy's disk, where squid runs on it
      // if it ran on the disk before or booted on one that parses.
      ensures ok ==> name in Held(proxy.gen.files) && name in proxy.lists
                     && Holds(proxy.disk, File(VMListPath(name), proxy.lists[name]))
      ensures ok && (if old(Up(PROXY_VM)) then old(proxy.Live()) else proxy.Parsed(proxy.disk)) ==> proxy.Live()
      ensures ok && (noEdit || text.None?) ==> ListIsSettled(name, old(proxy.lists))
      // Its check has passed, the token is in if there is one, and nobody else got it.
      ensures ok ==> Walled(name) && (token.Some? ==> name in tokens) && (linked ==> name in sshLinks)
      ensures ok ==> Hooks(name) in steps
      ensures tokens <= old(tokens) + {name} && verified <= old(verified) + {name}
      ensures fit == Some(false) ==> !ok && tokens == old(tokens)
      // No VM is created from a config the backend has not accepted.
      ensures name in vms && name !in old(vms) ==> {Hooks(name), Validated(name)} <= steps
      // The ledger: the port it held, or the least free one; nobody else's changes.
      ensures var was, now := Held(old(proxy.gen.files)), Held(proxy.gen.files);
              || now == was
              || (name !in was && LeastFree(was.Values, PORT_MIN).Some? && now == was[name := LeastFree(was.Values, PORT_MIN).value])
      // A create that fails leaves behind nothing but its own artifacts.
      ensures SameBut(old(proxy.gen.files), proxy.gen.files, Artifacts(name) + {ConfigFile(PROXY_VM), RENDERED_FILE})
      ensures Keeps(old(proxy.lists), proxy.lists, {name})
      ensures SameBut(old(vms), vms, {name, PROXY_VM})
      ensures forall n :: n != name ==> (n in mine <==> n in old(mine))
      ensures forall n :: n != name ==> (n in sshLinks <==> n in old(sshLinks))
      ensures forall n :: n != name ==> (Registered(n) <==> old(Registered(n)))
      // A name that is taken is refused.
      ensures name in old(vms) && lapses == old(lapses) ==> !ok && vms == old(vms) && proxy.gen.files == old(proxy.gen.files)
      ensures misled == old(misled) && (lapses == old(lapses) ==> adopted == old(adopted))
      ensures lapses >= old(lapses)
      // When nothing fails and there is a port, it works.
      ensures old(CanCreate(name)) && name !in old(vms) && noEdit ==> Fair() && ok && lapses == old(lapses)
      // Told that a VM is not there, it takes the name for free.
      ensures (steady && old(Calm() && proxy.Seedable(name) && CanAllocate(name) && Up(name) && !Up(PROXY_VM))
               && deaf == old(lapses) + 1 && noEdit && name != PROXY_VM) ==> !watch.registered
      ensures forall n :: n != name ==> proxy.overlay(n) == old(proxy.overlay)(n)
      ensures adopted ==> old(adopted) || old(name in vms && Up(name) && !Registered(name) && !Up(PROXY_VM))
    {
      hide Ledger, Held, Readable, ConfigFile, VMName, PROXY_VM, RENDERED_FILE, VMListPath, Holds, Proxy.Live, Proxy.Parsed, Host.Calm,
           Host.CanAllocate, Proxy.Seedable, Host.ListIsSettled, Host.Up, RUNNING, SameBut, Keeps, Artifacts, Host.Covered, Host.Guarded,
           Host.Tracked, Host.Walled, Host.Fit, Host.Registered, Proxy.SeedOf, Host.Served, Host.KeptUp, Host.KeptGuarded, Host.Valid;
      SameAsItself(proxy.gen.files, Artifacts(name) + {ConfigFile(PROXY_VM), RENDERED_FILE});
      SameAsItself(vms, {name, PROXY_VM});
      SameAsItself(proxy.lists, {name});
      SameButKeeps(proxy.lists, proxy.lists, {name});
      ValidLedger();
      steps := {};
      if name == PROXY_VM {
        return false;
      }
      var known := Exists(name);
      if known {
        return false;
      }
      AbsentIsDown(name);
      Adopt(name);
      ok := Make(name, noEdit, settings, text, config, repo);
    }

    lemma AbsentIsDown(name: string)
      ensures name !in vms ==> !Up(name)
    {
    }

    /** A create once nothing answers to the name. */
    method Make(name: string, noEdit: bool, settings: Option<Option<Features>>, text: Option<string>, config: string, repo: string)
      returns (ok: bool)
      requires Valid() && VMName(name) && name != PROXY_VM
      requires !adopted ==> Registered(name) || !Up(name) || Up(PROXY_VM)
      modifies this`vms, this`guests, this`steps, this`lapses, this`watch, this`mine, this`verified, this`tokens, this`sshLinks
      modifies proxy`template, proxy`overlay, proxy`lists, proxy`honest, proxy`disk, proxy`made, proxy`trace, proxy`loaded, proxy.gen
      ensures Valid()
      ensures ok ==> name !in old(vms) && name in mine && name in verified && Up(name) && Up(PROXY_VM)
      ensures ok ==> name in Held(proxy.gen.files) && name in proxy.lists
                     && Holds(proxy.disk, File(VMListPath(name), proxy.lists[name]))
      ensures ok && (if old(Up(PROXY_VM)) then old(proxy.Live()) else proxy.Parsed(proxy.disk)) ==> proxy.Live()
      ensures ok && (noEdit || text.None?) ==> ListIsSettled(name, old(proxy.lists))
      ensures var was, now := Held(old(proxy.gen.files)), Held(proxy.gen.files);
              || now == was
              || (name !in was && LeastFree(was.Values, PORT_MIN).Some? && now == was[name := LeastFree(was.Values, PORT_MIN).value])
      ensures SameBut(old(proxy.gen.files), proxy.gen.files, Artifacts(name) + {ConfigFile(PROXY_VM), RENDERED_FILE})
      ensures Keeps(old(proxy.lists), proxy.lists, {name})
      ensures SameBut(old(vms), vms, {name, PROXY_VM})
      ensures forall n :: n != name ==> (n in mine <==> n in old(mine))
      ensures forall n :: n != name ==> (n in sshLinks <==> n in old(sshLinks))
      ensures forall n :: n != name ==> (Registered(n) <==> old(Registered(n)))
      ensures lapses >= old(lapses)
      ensures old(CanCreate(name)) && name !in old(vms) && noEdit ==> Fair() && ok && lapses == old(lapses)
      ensures old(CanLay(name)) && noEdit && old(Up(name) && !Up(PROXY_VM)) ==> !watch.registered
      ensures ok ==> Walled(name) && (token.Some? ==> name in tokens) && (linked ==> name in sshLinks) && Hooks(name) in steps
      ensures tokens <= old(tokens) + {name} && verified <= old(verified) + {name}
      ensures fit == Some(false) ==> !ok && tokens == old(tokens)
      ensures name in vms && name !in old(vms) ==> {Hooks(name), Validated(name)} <= steps
      ensures forall n :: n != name ==> proxy.overlay(n) == old(proxy.overlay)(n)
    {
      hide Ledger, Held, Readable, IsSidecar, ConfigFile, RepoFile, PortFile, VMName, PROXY_VM, RENDERED_FILE, InPlace, VMListPath, Holds,
           Proxy.Live, Proxy.Parsed, Host.Calm, Host.CanAllocate, Host.Registered, Proxy.Seedable, Proxy.Ready, Proxy.OnlySeeded,
           Proxy.SeedOf, Host.ListIsSettled, Host.Up, ReconciledText, GroupsFrom, ScanLines, RUNNING, SameBut, Keeps, Artifacts,
           Host.Covered, Host.Guarded, Host.Tracked, Host.CanLay, Host.Fit, Host.Walled, Host.Served, Host.KeptUp, Host.KeptGuarded;
      SameAsItself(vms, {name, PROXY_VM});
      ok := Lay(name, noEdit, settings, text, config, repo);
      ghost var laid, files := proxy.lists, proxy.gen.files;
      SameAsItself(files, {ConfigFile(PROXY_VM), RENDERED_FILE});
      SameButTwice(old(proxy.gen.files), files, files, Artifacts(name), {ConfigFile(PROXY_VM), RENDERED_FILE});
      SameButKeeps(old(proxy.lists), laid, {name});
      if ok {
        ok := Provision(name);
        SameButTwice(old(proxy.gen.files), files, proxy.gen.files, Artifacts(name), {ConfigFile(PROXY_VM), RENDERED_FILE});
        SeedingKeeps(old(proxy.lists), laid, name);
        if ok && (noEdit || text.None?) {
          SettledOnceSeeded(name, old(proxy.lists), laid);
        }
      }
    }

    lemma SeedingKeeps(was: map<string, string>, laid: map<string, string>, name: string)
      requires SameBut(was, laid, {name}) && proxy.OnlySeeded(laid, proxy.lists)
      ensures Keeps(was, proxy.lists, {name})
    {
      hide Proxy.SeedOf;
    }

    lemma SettledOnceSeeded(name: string, was: map<string, string>, laid: map<string, string>)
      requires proxy.OnlySeeded(laid, proxy.lists) && name in proxy.lists
      requires if name in was then Follows(name, was[name], laid, was) else laid == was
      ensures ListIsSettled(name, was)
    {
      hide ReconciledText, GroupsFrom, ScanLines, Proxy.SeedOf;
    }

    /** What a create needs of the host. */
    ghost predicate CanCreate(name: string)
      reads this`lapses, proxy`honest, proxy`template, proxy`overlay, proxy.gen
    {
      CanLay(name) && Fit()
    }

    ghost predicate CanLay(name: string)
      reads this`lapses, proxy`honest, proxy`template, proxy`overlay, proxy.gen
    {
      Fair() && name != PROXY_VM && proxy.Seedable(name) && CanAllocate(name)
    }

    /** Everything of a create that touches no VM. */
    method Lay(name: string, noEdit: bool, settings: Option<Option<Features>>, text: Option<string>, config: string, repo: string)
      returns (ok: bool)
      requires Valid() && VMName(name) && name != PROXY_VM
      requires !adopted ==> Registered(name) || !Up(name) || Up(PROXY_VM)
      modifies proxy`lists, proxy`template, proxy`overlay, proxy.gen, this`watch, this`steps
      ensures Valid()
      ensures ok ==> name in Held(proxy.gen.files) && Registered(name)
      ensures forall n :: n != name ==> (Registered(n) <==> old(Registered(n)))
      ensures ok && (noEdit || text.None?) ==>
                if name in old(proxy.lists) then Follows(name, old(proxy.lists)[name], proxy.lists, old(proxy.lists))
                else proxy.lists == old(proxy.lists)
      ensures SameBut(old(proxy.lists), proxy.lists, {name})
      ensures var was, now := Held(old(proxy.gen.files)), Held(proxy.gen.files);
              || now == was
              || (name !in was && LeastFree(was.Values, PORT_MIN).Some? && now == was[name := LeastFree(was.Values, PORT_MIN).value])
      ensures SameBut(old(proxy.gen.files), proxy.gen.files, Artifacts(name))
      ensures old(CanLay(name)) && noEdit ==> Fair() && ok
      ensures old(CanLay(name)) && noEdit && Up(name) && !Up(PROXY_VM) ==> !watch.registered
      ensures ok ==> {Hooks(name), Validated(name)} <= steps
      ensures forall n :: n != name ==> proxy.overlay(n) == old(proxy.overlay)(n)
    {
      hide Ledger, Held, Readable, IsSidecar, ConfigFile, RepoFile, PortFile, VMName, PROXY_VM, Host.Follows, Host.Up, Host.Covered,
           Host.CanAllocate, Proxy.Seedable, Host.Guarded, Host.Walled, SameBut, Artifacts, Host.Valid;
      SameAsItself(proxy.lists, {name});
      SameAsItself(proxy.gen.files, Artifacts(name));
      ValidLedger();
      ok := Do(Hooks(name));
      if ok {
        ok := ReviewPlan(name, noEdit, settings, text);
        if ok {
          ok := Prepare(name, config, repo);
          ValidLedger();
        }
      }
    }

    /** The proxy up, then the VM. */
    method Provision(name: string) returns (ok: bool)
      requires Valid() && name != PROXY_VM && Registered(name) && name in Held(proxy.gen.files)
      modifies this`vms, this`guests, this`steps, this`lapses, this`watch, this`mine, this`verified, this`tokens, this`sshLinks
      modifies proxy`template, proxy`lists, proxy`honest, proxy`disk, proxy`made, proxy`trace, proxy`loaded, proxy.gen
      ensures Valid()
      ensures ok ==> name !in old(vms) && name in mine && name in verified && Up(name) && Up(PROXY_VM)
      ensures ok ==> name in proxy.lists && Holds(proxy.disk, File(VMListPath(name), proxy.lists[name]))
      ensures ok && (if old(Up(PROXY_VM)) then old(proxy.Live()) else proxy.Parsed(proxy.disk)) ==> proxy.Live()
      ensures proxy.OnlySeeded(old(proxy.lists), proxy.lists)
      ensures Held(proxy.gen.files) == Held(old(proxy.gen.files)) && forall n :: Registered(n) <==> old(Registered(n))
      ensures SameBut(old(proxy.gen.files), proxy.gen.files, {ConfigFile(PROXY_VM), RENDERED_FILE})
      ensures SameBut(old(vms), vms, {name, PROXY_VM})
      ensures forall n :: n != name ==> (n in mine <==> n in old(mine))
      ensures forall n :: n != name ==> (n in sshLinks <==> n in old(sshLinks))
      ensures old(proxy.template).Some? ==> proxy.template == old(proxy.template)
      ensures lapses >= old(lapses)
      ensures watch.registered ==> old(watch.registered)
      ensures old(Fair()) && Fit() && name !in old(vms) ==> Fair() && ok && lapses == old(lapses)
      ensures ok ==> Walled(name) && (token.Some? ==> name in tokens) && (linked ==> name in sshLinks)
      ensures tokens <= old(tokens) + {name} && verified <= old(verified) + {name}
      ensures fit == Some(false) ==> !ok && tokens == old(tokens)
      ensures steps >= old(steps)
    {
      hide Ledger, Held, Readable, IsSidecar, ConfigFile, VMName, PROXY_VM, RENDERED_FILE, InPlace, VMListPath, Holds, Desired,
           Proxy.OnlySeeded, Proxy.SeedOf, Host.Up, Proxy.Ready, Proxy.Wanted, Proxy.Live, Proxy.Parsed, Host.Calm, Host.Served, Host.KeptUp, Host.KeptGuarded;
      LedgerIsReadable(proxy.gen.files);
      var changed, err := Ensure();
      ok := !err;
      if ok {
        proxy.ListServed(name);
        ok := Build(name);
      }
    }

    /** A list that was there follows the config; one that was not is a fresh seed. */
    ghost predicate ListIsSettled(name: string, was: map<string, string>)
      reads proxy`template, proxy`overlay, proxy`lists
    {
      name in proxy.lists &&
      if name in was then
        && proxy.template.Some? && proxy.overlay(name).Some?
        && GroupsFrom(ScanLines(proxy.template.value), None).Ok?
        && proxy.lists[name]
           == ReconciledText(was[name], GroupsFrom(ScanLines(proxy.template.value), None).value, proxy.overlay(name).value)
      else proxy.SeedOf(name, proxy.lists[name])
    }

    // --- rm -----------------------------------------------------------------------------------------

    /** os.Remove: absent is not an error. */
    method RemoveFile(file: string) returns (removed: bool, ok: bool)
      modifies proxy.gen
      ensures ok ==> proxy.gen.files == old(proxy.gen.files) - {file} && (removed <==> file in old(proxy.gen.files))
      ensures !ok ==> proxy.gen.files == old(proxy.gen.files) && !removed
      ensures proxy.gen.steady ==> ok
    {
      if file !in proxy.gen.files {
        assert proxy.gen.files - {file} == proxy.gen.files;
        return false, true;
      }
      ok := *;
      ok := ok || proxy.gen.steady;
      removed := ok;
      if ok {
        proxy.gen.files := proxy.gen.files - {file};
      }
    }

    /** removeArtifacts: the config, the repo sidecar, the port and the ssh link; the first
        failure stops it. The allowlist is not among them. */
    method RemoveArtifacts(name: string) returns (removed: bool, ok: bool)
      requires Ledger(proxy.gen.files) && name != PROXY_VM
      modifies proxy.gen, this`sshLinks
      ensures Ledger(proxy.gen.files)
      ensures ok ==> Artifacts(name) !! proxy.gen.files.Keys && (linked ==> name !in sshLinks)
      ensures SameBut(old(proxy.gen.files), proxy.gen.files, Artifacts(name))
      ensures Held(proxy.gen.files) == Held(old(proxy.gen.files)) || Held(proxy.gen.files) == Held(old(proxy.gen.files)) - {name}
      ensures ok ==> name !in Held(proxy.gen.files)
      ensures forall n :: n != name ==> (Registered(n) <==> old(Registered(n)))
      ensures Registered(name) ==> old(Registered(name))
      ensures forall n :: n != name ==> (n in sshLinks <==> n in old(sshLinks))
      ensures ok ==> (removed <==> proxy.gen.files != old(proxy.gen.files) || sshLinks != old(sshLinks))
      // In this order: the slot is given up only once the config is gone.
      ensures PortFile(name) in old(proxy.gen.files) && PortFile(name) !in proxy.gen.files ==>
                ConfigFile(name) !in proxy.gen.files && RepoFile(name) !in proxy.gen.files
      ensures steady && proxy.gen.steady ==> ok && (old(Registered(name)) ==> removed)
      ensures !linked ==> sshLinks == old(sshLinks)
    {
      hide Ledger, Held, Readable, IsSidecar, ConfigFile, RepoFile, PortFile;
      ghost var was := proxy.gen.files;
      ArtifactNames(name, name);
      forall n ensures n != name ==> ConfigFile(n) != ConfigFile(name) && ConfigFile(n) != RepoFile(name) && ConfigFile(n) != PortFile(name) {
        ArtifactNames(n, name);
      }
      SameLedger(was, was, {});
      var first, second, third := false, false, false;
      first, ok := RemoveFile(ConfigFile(name));
      SameLedger(was, proxy.gen.files, {ConfigFile(name)});
      if ok {
        second, ok := RemoveFile(RepoFile(name));
        SameLedger(was, proxy.gen.files, {ConfigFile(name), RepoFile(name)});
        if ok {
          ghost var before := proxy.gen.files;
          third, ok := RemoveFile(PortFile(name));
          if ok {
            ReleaseKeepsLedger(before, name);
          }
        }
      }
      removed := first || second || third;
      if ok && linked && name in sshLinks {
        ok := Works();
        if ok {
          sshLinks := sshLinks - {name};
          removed := true;
        }
      }
    }

    /** retireFromProxy: the departed VM's rules leave the running proxy, and the proxy stops if
        nobody is left. */
    method Retire(readable: bool) returns (ok: bool)
      requires Valid()
      modifies this`vms, this`lapses, this`watch
      modifies proxy`lists, proxy`honest, proxy`disk, proxy`made, proxy`trace, proxy`loaded, proxy.gen
      ensures Valid()
      ensures SameBut(old(vms), vms, {PROXY_VM}) && vms.Keys == old(vms).Keys
      ensures SameBut(old(proxy.gen.files), proxy.gen.files, {RENDERED_FILE})
      ensures Held(proxy.gen.files) == Held(old(proxy.gen.files)) && forall n :: Registered(n) <==> old(Registered(n))
      ensures forall n :: Up(n) ==> old(Up(n))
      ensures proxy.OnlySeeded(old(proxy.lists), proxy.lists)
      ensures lapses >= old(lapses)
      ensures ok && lapses == old(lapses) && old(Up(PROXY_VM)) ==>
                && proxy.Settled()
                && (old(proxy.Live()) ==> proxy.Live())
      ensures ok && lapses == old(lapses) && old(Up(PROXY_VM)) && readable ==>
                (Up(PROXY_VM) <==> exists n :: Registered(n) && Up(n))
      ensures old(Fair()) ==> Fair() && ok && lapses == old(lapses)
    {
      hide Ledger, Held, Readable, IsSidecar, ConfigFile, VMName, RENDERED_FILE, InPlace, Desired, Proxy.OnlySeeded, Proxy.SeedOf,
           Proxy.Ready, Proxy.Wanted, PROXY_VM, RUNNING, Proxy.Live, Host.Calm, Host.Up, Host.Registered;
      LedgerIsReadable(proxy.gen.files);
      proxy.SeededNothing(proxy.lists);
      ok := true;
      var up := Running(PROXY_VM);
      if up {
        var applied, err := Serve();
        ok := !err;
      }
      if ok {
        ok := StopIfIdle(readable);
      }
    }

    /** The VM goes, unless its transcripts were asked for and cannot be had. */
    method Destroy(name: string, archive: bool) returns (ok: bool)
      requires Valid() && name != PROXY_VM
      modifies this`vms, this`lapses, this`watch, this`mine, this`verified, this`tokens, this`guests, this`steps
      ensures Valid() && SameBut(old(vms), vms, {name})
      ensures mine == old(mine) || mine == old(mine) - {name}
      ensures ok ==> name !in vms && name !in mine
      ensures Up(PROXY_VM) == old(Up(PROXY_VM)) && forall n :: Up(n) ==> old(Up(n))
      // With an archive asked for, nothing is destroyed that was not up to be archived.
      ensures archive && old(!Up(name)) ==> !ok && vms == old(vms)
      ensures lapses >= old(lapses)
      ensures steady && deaf <= old(lapses) && (archive ==> old(Up(name))) ==> ok && lapses == old(lapses)
      ensures steps >= old(steps)
      // Nor anything that was not archived.
      ensures archive && vms != old(vms) ==> Archived(name) in steps
    {
      hide Ledger, Held, Readable, ConfigFile, VMName;
      ok := true;
      if archive {
        ok := Running(name);
        if ok {
          ok := Do(Archived(name));
        }
      }
      if ok {
        ok := Delete(name);
      }
    }

    /** The host files go, and the proxy is told: after a delete always, otherwise when there
        was something to remove. */
    method Clear(name: string, deleted: bool, readable: bool) returns (ok: bool)
      requires Valid() && name != PROXY_VM && (name in mine ==> misled)
      modifies this`vms, this`lapses, this`watch, this`sshLinks
      modifies proxy`lists, proxy`honest, proxy`disk, proxy`made, proxy`trace, proxy`loaded, proxy.gen
      ensures Valid()
      ensures SameBut(old(vms), vms, {PROXY_VM}) && vms.Keys == old(vms).Keys
      ensures ok ==> Artifacts(name) !! proxy.gen.files.Keys && name !in Held(proxy.gen.files) && (linked ==> name !in sshLinks)
      ensures SameBut(old(proxy.gen.files), proxy.gen.files, Artifacts(name) + {RENDERED_FILE})
      ensures Held(proxy.gen.files) == Held(old(proxy.gen.files)) || Held(proxy.gen.files) == Held(old(proxy.gen.files)) - {name}
      ensures forall n :: n != name ==> (Registered(n) <==> old(Registered(n)))
      ensures Registered(name) ==> old(Registered(name))
      ensures forall n :: Up(n) ==> old(Up(n))
      ensures proxy.OnlySeeded(old(proxy.lists), proxy.lists)
      ensures lapses >= old(lapses)
      ensures ok && lapses == old(lapses) && old(Up(PROXY_VM)) ==>
                && proxy.Settled()
                && (old(proxy.Live()) ==> proxy.Live())
      ensures ok && lapses == old(lapses) && old(Up(PROXY_VM)) && readable ==>
                (Up(PROXY_VM) <==> exists n :: Registered(n) && Up(n))
      ensures old(Fair()) && (deleted || old(Registered(name))) ==> Fair() && ok && lapses == old(lapses)
      ensures ok ==> deleted || !(Artifacts(name) !! old(proxy.gen.files).Keys) || name in old(sshLinks)
    {
      hide Ledger, Held, Readable, IsSidecar, ConfigFile, RepoFile, PortFile, VMName, RENDERED_FILE, InPlace, Desired, Proxy.OnlySeeded,
           Proxy.SeedOf, Proxy.Ready, Proxy.Wanted, PROXY_VM, RUNNING, Host.Up, Proxy.Live, Host.Registered, Proxy.Seedable;
      proxy.SeededNothing(proxy.lists);
      LedgerIsReadable(proxy.gen.files);
      var removed;
      removed, ok := RemoveArtifacts(name);
      LedgerIsReadable(proxy.gen.files);
      ghost var cleared := proxy.gen.files;
      ok := ok && (removed || deleted);
      if ok {
        ok := Retire(readable);
        StillCleared(name, cleared, proxy.gen.files);
      }
    }

    method Rm(name: string, archive: bool, readable: bool) returns (ok: bool)
      requires Valid() && VMName(name)
      modifies this`vms, this`lapses, this`misled, this`watch, this`mine, this`verified, this`tokens, this`sshLinks, this`guests, this`steps
      modifies proxy`lists, proxy`honest, proxy`disk, proxy`made, proxy`trace, proxy`loaded, proxy.gen
      ensures Valid()
      // Gone, with everything its create left and its slot at the proxy.
      ensures ok && lapses == old(lapses) ==> name !in vms
      ensures ok && !misled ==> name !in mine
      ensures ok ==> Artifacts(name) !! proxy.gen.files.Keys && name !in Held(proxy.gen.files) && (linked ==> name !in sshLinks)
      // Nothing else is: other files, other ports, other VMs, every allowlist.
      ensures SameBut(old(proxy.gen.files), proxy.gen.files, Artifacts(name) + {RENDERED_FILE})
      ensures Held(proxy.gen.files) == Held(old(proxy.gen.files)) || Held(proxy.gen.files) == Held(old(proxy.gen.files)) - {name}
      ensures forall n :: n != name ==> (Registered(n) <==> old(Registered(n)))
      ensures SameBut(old(vms), vms, {name, PROXY_VM})
      ensures forall n :: Up(n) ==> old(Up(n))
      ensures proxy.OnlySeeded(old(proxy.lists), proxy.lists)
      ensures archive && old(name in vms && !Up(name)) && lapses == old(lapses) ==> !ok && vms == old(vms)
      // A proxy that is up has the ledger without it on its disk, and stays up for whoever is left.
      ensures ok && lapses == old(lapses) && old(Up(PROXY_VM)) ==>
                && proxy.Settled()
                && (old(proxy.Live()) ==> proxy.Live())
      ensures ok && lapses == old(lapses) && old(Up(PROXY_VM)) && readable ==>
                (Up(PROXY_VM) <==> exists n :: Registered(n) && Up(n))
      ensures misled == old(misled) || (old(name in mine) && lapses > old(lapses))
      ensures lapses >= old(lapses)
      // Told that a VM is not there, it takes it for the leftovers of a failed create.
      ensures old(Calm()) && deaf == old(lapses) + 1 && old(Registered(name)) && name != PROXY_VM ==>
                && Fair() && ok && lapses == old(lapses) + 1 && vms.Keys == old(vms).Keys && SameBut(old(vms), vms, {PROXY_VM}) && mine == old(mine)
                && (old(Up(PROXY_VM)) && readable ==> (Up(PROXY_VM) <==> exists n :: Registered(n) && Up(n)))
      // With an archive asked for, a VM is gone only once it is archived.
      ensures archive && name != PROXY_VM && old(name in vms) && name !in vms ==> Archived(name) in steps
      // A VM that is known and still there keeps its artifacts.
      ensures lapses == old(lapses) && old(name in vms) && name in vms ==>
                !ok && proxy.gen.files == old(proxy.gen.files) && sshLinks == old(sshLinks)
      // Nothing is answered for a name that neither the backend nor the host knows.
      ensures ok ==> old(name in vms) || !(Artifacts(name) !! old(proxy.gen.files).Keys) || name in old(sshLinks)
    {
      hide Ledger, Held, Readable, IsSidecar, ConfigFile, VMName, RENDERED_FILE, InPlace, Desired, Proxy.OnlySeeded,
           Proxy.SeedOf, Proxy.Ready, Proxy.Wanted, PROXY_VM, RUNNING, Host.Up, Artifacts, Proxy.Live, Host.Registered, Proxy.Sound, Host.Walled,
           Host.Covered, Host.Guarded, Host.Tracked, Host.Served, Host.KeptUp, Host.KeptGuarded, Host.Valid, SameBut;
      ValidLedger();
      proxy.SeededNothing(proxy.lists);
      SameAsItself(vms, {name});
      SameAsItself(vms, {name, PROXY_VM});
      SameAsItself(proxy.gen.files, Artifacts(name) + {RENDERED_FILE});
      ghost var was, left := vms, vms;
      steps := {};
      if name == PROXY_VM {
        return false;
      }
      var known := Exists(name);
      if !known {
        Mislead(name);
        ok := Clear(name, false, readable);
      } else {
        ok := Destroy(name, archive);
        left := vms;
        SameAsItself(left, {PROXY_VM});
        if ok {
          ok := Clear(name, true, readable);
        }
      }
      SameButTwice(was, left, vms, {name}, {PROXY_VM});
      assert {name} + {PROXY_VM} == {name, PROXY_VM};
    }
  }

  /** What a create leaves in the generated directory beside the proxy's own files. */
  function Artifacts(name: string): set<string> {
    {ConfigFile(name), RepoFile(name), PortFile(name)}
  }

  /** A create that came to nothing leaks nothing that rm cannot free. */
  method NewThenRm(h: Host, name: string, config: string, repo: string) returns (created: bool, removed: bool)
    requires h.Valid() && VMName(name)
    requires name !in h.vms && Artifacts(name) !! h.proxy.gen.files.Keys
    modifies h, h.proxy, h.proxy.gen
    ensures h.Valid()
    ensures removed ==> SameBut(old(h.proxy.gen.files), h.proxy.gen.files, {ConfigFile(PROXY_VM), RENDERED_FILE})
    ensures removed ==> Held(h.proxy.gen.files) == Held(old(h.proxy.gen.files))
  {
    hide Ledger, Held, Readable, IsSidecar, ConfigFile, RepoFile, PortFile, VMName, RENDERED_FILE, InPlace, Proxy.OnlySeeded,
         Proxy.SeedOf, Proxy.Ready, Proxy.Wanted, PROXY_VM, RUNNING, Host.Up, Holds, VMListPath, Host.ListIsSettled;
    LedgerIsReadable(h.proxy.gen.files);
    HeldAt(h.proxy.gen.files, name);
    ghost var was := Held(h.proxy.gen.files);
    created := h.New(name, true, None, None, config, repo);
    removed := h.Rm(name, false, true);
    ghost var port := LeastFree(was.Values, PORT_MIN);
    assert port.Some? ==> was[name := port.value] - {name} == was;
  }

  /** Why `misled` matters: an rm told that the last running sandbox is not there, and nothing
      else going wrong, takes the config from it and the proxy down under it. */
  method MisledRmStrands(h: Host, name: string) returns (ok: bool)
    requires h.Valid() && h.Calm() && h.deaf == h.lapses + 1
    requires VMName(name) && name in h.mine && h.Registered(name) && h.Up(name) && h.Up(PROXY_VM)
    requires forall n :: h.Registered(n) && h.Up(n) ==> n == name
    modifies h, h.proxy, h.proxy.gen
    ensures ok && h.lapses == old(h.lapses) + 1
    ensures name in h.mine && h.Up(name) && !h.Up(PROXY_VM) && !h.Registered(name) && !h.Covered()
  {
    hide Ledger, Held, Readable, IsSidecar, ConfigFile, RepoFile, PortFile, VMName, RENDERED_FILE, InPlace, Proxy.OnlySeeded,
         Proxy.SeedOf, Proxy.Ready, Proxy.Wanted, Proxy.Live, Proxy.Sound;
    ok := h.Rm(name, false, true);
    assert ConfigFile(name) in Artifacts(name);
  }

  /** Why `adopted` matters: a new told that a running VM is not there, with the proxy down and
      nothing else going wrong, registers it before the proxy is up. */
  method MisledNewAdopts(h: Host, name: string, config: string, repo: string) returns (ok: bool)
    requires h.Valid() && h.Calm() && h.deaf == h.lapses + 1 && h.watch.registered
    requires VMName(name) && name != PROXY_VM && h.proxy.Seedable(name) && h.CanAllocate(name)
    requires h.Up(name) && !h.Registered(name) && !h.Up(PROXY_VM)
    modifies h, h.proxy, h.proxy.gen
    ensures !h.watch.registered
  {
    hide VMName, Host.Valid, Host.ListIsSettled, SameBut, Held, Holds, InPlace, VMListPath, Proxy.Ready, Proxy.Wanted, Artifacts,
         Proxy.SeedOf, Host.Up, Host.Registered, Host.Covered, Host.Fair, Proxy.Live, Proxy.Parsed, Host.CanCreate;
    ok := h.New(name, true, None, None, config, repo);
  }

  /** A sandbox without its config is stranded by commands that all hear the truth and all
      succeed: it is started, whoever else is registered is stopped, and the last stop takes
      the proxy down. `other` is a VM there is, or one that can be created. */
  method Strand(h: Host, name: string, others: seq<string>, other: string, config: string, repo: string)
    requires h.Valid() && h.Fair() && name in h.mine && !h.Registered(name) && VMName(name) && h.proxy.overlay(name).Some?
    requires VMName(other) && other != name && if other in h.vms then other != PROXY_VM else h.CanCreate(other)
    requires forall n <- others :: VMName(n) && n in h.vms && n != PROXY_VM && n != name
    requires forall n :: h.Registered(n) && h.Up(n) ==> n in others
    modifies h, h.proxy, h.proxy.gen
    ensures h.lapses == old(h.lapses)
    ensures name in h.mine && h.Up(name) && !h.Up(PROXY_VM) && !h.Covered()
  {
    hide Ledger, Held, Readable, VMName, PROXY_VM, Proxy.OnlySeeded, Proxy.Live, Proxy.Parsed, Holds, VMListPath, Artifacts,
         Host.ListIsSettled, Host.Calm, Host.Covered, Keeps, Host.Served, Host.KeptGuarded, Host.CanAllocate, Proxy.Seedable,
         RUNNING, ConfigFile;
    if other !in h.vms {
      var created := h.New(other, true, None, None, config, repo);
    }
    var started := h.StartCommand(name);
    StopThem(h, name, others, other);
    Stranded(h, name);
  }

  /** One sandbox left running while all others are stopped, the registered ones among them. */
  method StopThem(h: Host, name: string, others: seq<string>, last: string)
    requires h.Valid() && h.Fair() && h.Up(name) && name != PROXY_VM && !h.Registered(name)
    requires VMName(last) && last in h.vms && last != PROXY_VM && last != name
    requires forall n <- others :: VMName(n) && n in h.vms && n != PROXY_VM && n != name
    requires forall n :: h.Registered(n) && h.Up(n) ==> n in others || n == last
    modifies h`vms, h`lapses, h`watch
    ensures h.Valid() && h.lapses == old(h.lapses) && h.Up(name) && !h.Up(PROXY_VM)
  {
    hide Host.Valid, VMName, PROXY_VM, Host.Calm, RUNNING, ConfigFile;
    var ok: bool;
    for i := 0 to |others|
      invariant h.Valid() && h.lapses == old(h.lapses) && h.Up(name) && h.vms.Keys == old(h.vms).Keys
      invariant forall n :: h.Registered(n) && h.Up(n) ==> n in others[i..] || n == last
    {
      assert others[i..] == [others[i]] + others[i + 1..];
      ok := h.StopCommand(others[i], true);
    }
    ok := h.StopCommand(last, true);
  }

  lemma Stranded(h: Host, name: string)
    requires name in h.mine && h.Up(name) && !h.Up(PROXY_VM)
    ensures !h.Covered()
  {
  }

  datatype Command =
    | Install
    | NewVM(name: string, noEdit: bool, settings: Option<Option<Features>>, text: Option<string>, config: string, repo: string)
    | StartVM(name: string)
    | ShellVM(name: string)
    | StopVM(name: string, readable: bool)
    | RmVM(name: string, archive: bool, readable: bool)

  function Removed(commands: seq<Command>): set<string> {
    set c | c in commands && c.RmVM? :: c.name
  }

  function Created(commands: seq<Command>): set<string> {
    set c | c in commands && c.NewVM? :: c.name
  }

  /** Over every run of commands, with any call of any of them failing: the ledger stays a
      ledger and the token stays with verified sandboxes. At no moment has a registered sandbox
      run without the proxy, unless a `new` was told that a running VM is not there; nor has one
      that `new` created, unless an `rm` was told that of it. */
  method RunAll(h: Host, commands: seq<Command>)
    requires h.Valid()
    requires forall c <- commands :: c.Install? || VMName(c.name)
    modifies h, h.proxy, h.proxy.gen
    ensures h.Valid()
    ensures forall n <- h.tokens :: h.Walled(n)
    ensures !h.adopted ==> h.KeptGuarded()
    ensures !h.misled ==> h.KeptUp() && h.Tracked()
    ensures h.lapses == old(h.lapses) ==> h.misled == old(h.misled) && h.adopted == old(h.adopted)
    // A port is held until its own rm, a list is kept until its own re-create.
    ensures Keeps(Held(old(h.proxy.gen.files)), Held(h.proxy.gen.files), Removed(commands))
    ensures Keeps(old(h.proxy.lists), h.proxy.lists, Created(commands))
  {
    hide VMName, Host.Valid, Host.ListIsSettled, SameBut, Held, Holds, InPlace, VMListPath, Proxy.Ready, Proxy.Wanted, Artifacts,
         Proxy.OnlySeeded, Host.Up, Host.Registered, Proxy.Live, Proxy.Parsed, Host.Fair, Host.Calm;
    ValidIsReadable(h);
    for i := 0 to |commands|
      invariant h.Valid() && h.lapses >= old(h.lapses)
      invariant h.lapses == old(h.lapses) ==> h.misled == old(h.misled) && h.adopted == old(h.adopted)
      invariant Readable(old(h.proxy.gen.files)) && Readable(h.proxy.gen.files)
      invariant Keeps(Held(old(h.proxy.gen.files)), Held(h.proxy.gen.files), Removed(commands))
      invariant Keeps(old(h.proxy.lists), h.proxy.lists, Created(commands))
    {
      assert Removed([commands[i]]) <= Removed(commands) && Created([commands[i]]) <= Created(commands);
      RunOne(h, commands[i]);
      ValidIsReadable(h);
    }
    ValidIsServed(h);
  }

  /** Wherever coverage stands and every sandbox has its config, every further run keeps it,
      short of an rm misled about one of them. `Strand` is the other half: with a config gone,
      a run in which nothing is misled loses it. */
  method StaysCovered(h: Host, commands: seq<Command>)
    requires h.Valid() && h.Covered() && h.Tracked()
    requires forall c <- commands :: c.Install? || VMName(c.name)
    modifies h, h.proxy, h.proxy.gen
    ensures h.Valid() && (!h.misled ==> h.KeptUp() && h.Tracked())
    ensures h.lapses == old(h.lapses) ==> !h.misled
  {
    hide VMName, Host.Valid, Held;
    h.Recount();
    RunAll(h, commands);
  }

  lemma ValidIsReadable(h: Host)
    requires h.Valid()
    ensures Readable(h.proxy.gen.files)
  {
  }

  lemma ValidIsServed(h: Host)
    requires h.Valid()
    ensures forall n <- h.tokens :: h.Walled(n)
    ensures !h.misled ==> h.KeptUp() && h.Tracked()
    ensures !h.adopted ==> h.KeptGuarded()
  {
  }

  method RunOne(h: Host, command: Command)
    requires h.Valid() && (command.Install? || VMName(command.name))
    modifies h, h.proxy, h.proxy.gen
    ensures h.Valid() && h.lapses >= old(h.lapses)
    ensures h.lapses == old(h.lapses) ==> h.misled == old(h.misled) && h.adopted == old(h.adopted)
    ensures Keeps(Held(old(h.proxy.gen.files)), Held(h.proxy.gen.files), Removed([command]))
    ensures Keeps(old(h.proxy.lists), h.proxy.lists, Created([command]))
  {
    hide VMName, Host.Valid, Host.ListIsSettled, SameBut, Held, Holds, InPlace, VMListPath, Proxy.Ready, Proxy.Wanted, Artifacts,
         Proxy.SeedOf, Host.Up, Host.Registered, Host.Covered, Host.Fair, Host.Calm, Proxy.Live, Proxy.Parsed, Host.CanCreate;
    ValidIsReadable(h);
    assert command in [command];
    match command
    case Install =>
      var changed, err := h.Ensure();
    case NewVM(name, noEdit, settings, text, config, repo) =>
      var ok := h.New(name, noEdit, settings, text, config, repo);
    case StartVM(name) =>
      var ok := h.StartCommand(name);
    case ShellVM(name) =>
      var ok := h.Shell(name);
    case StopVM(name, readable) =>
      var ok := h.StopCommand(name, readable);
    case RmVM(name, archive, readable) =>
      var ok := h.Rm(name, archive, readable);
  }

  /** strings.CutSuffix(entry, ".yaml") */
  function CutSuffix(entry: string): Option<string> {
    if |entry| >= 5 && entry[|entry| - 5..] == ".yaml" then Some(entry[..|entry| - 5]) else None
  }

  lemma CutSuffixIsName(entry: string)
    ensures forall name :: entry == ConfigFile(name) <==> CutSuffix(entry) == Some(name)
  {
    forall name ensures entry == ConfigFile(name) <==> CutSuffix(entry) == Some(name) {
      if CutSuffix(entry) == Some(name) {
        assert entry == entry[..|entry| - 5] + entry[|entry| - 5..];
      }
    }
  }
}
