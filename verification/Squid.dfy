/** The generated access rules of internal/proxy/vmaccess.go, and what squid makes of them:
    rules are read from the generated text itself and decided first match first, between the
    deny rules the template puts above them and whatever follows. */
module Squid {
  import opened Text
  import opened Domains
  import opened Ports

  const VM_ACCESS_PATH := "/etc/squid/vm_access.conf"
  const VM_ALLOWLIST_DIR := "/etc/squid/allowed.d"

  /** vmAllowlistVMPath */
  function VMListPath(name: string): string { VM_ALLOWLIST_DIR + "/" + name + ".txt" }

  /** What config.VMName leaves of a repo name. */
  predicate VMName(name: string) {
    name != "" && forall c <- name :: 'a' <= c <= 'z' || '0' <= c <= '9' || c == '-'
  }

  lemma NamesAre(name: string)
    ensures VMName(name) <==> name != "" && forall c <- name :: c in SMALL || c in FIGURES || c == '-'
  {
    hide SMALL, FIGURES;
    forall c: char ensures (c in SMALL <==> 'a' <= c <= 'z') && (c in FIGURES <==> '0' <= c <= '9') {
      SmallLetters(c);
      Figures(c);
    }
  }

  // --- sorted names ------------------------------------------------------------------------

  /** The order of sort.Strings. */
  predicate AtMost(a: string, b: string) {
    a == "" || (b != "" && (a[0] < b[0] || (a[0] == b[0] && AtMost(a[1..], b[1..]))))
  }

  lemma {:induction false} Ordered(a: string, b: string, c: string)
    ensures AtMost(a, b) || AtMost(b, a)
    ensures AtMost(a, b) && AtMost(b, a) ==> a == b
    ensures AtMost(a, b) && AtMost(b, c) ==> AtMost(a, c)
    decreases |a| + |b| + |c|
  {
    if a != "" && b != "" {
      Ordered(a[1..], b[1..], if c != "" then c[1..] else "");
      if a[0] == b[0] && a[1..] == b[1..] {
        assert a == [a[0]] + a[1..] && b == [b[0]] + b[1..];
      }
    }
  }

  ghost predicate IsLeast(names: set<string>, n: string) {
    n in names && forall m :: m in names ==> AtMost(n, m)
  }

  lemma LeastName(names: set<string>) returns (n: string)
    requires names != {}
    ensures IsLeast(names, n)
    decreases |names|
  {
    hide AtMost;
    n := SomeMember(names);
    Ordered(n, n, n);
    if names != {n} {
      var m := LeastName(names - {n});
      forall k | k in names ensures AtMost(if AtMost(n, m) then n else m, k) {
        Ordered(n, m, k);
      }
      n := if AtMost(n, m) then n else m;
    }
  }

  lemma LeastExists(names: set<string>)
    requires names != {}
    ensures exists n :: IsLeast(names, n)
  {
    var n := LeastName(names);
  }

  lemma LeastIsUnique(names: set<string>, a: string, b: string)
    requires IsLeast(names, a) && IsLeast(names, b)
    ensures a == b
  {
    Ordered(a, b, a);
  }

  /** The names in sort.Strings order. */
  ghost function Sorted(names: set<string>): (sorted: seq<string>)
    ensures forall n :: n in sorted <==> n in names
    ensures forall i, j :: 0 <= i < j < |sorted| ==> sorted[i] != sorted[j] && AtMost(sorted[i], sorted[j])
    decreases |names|
  {
    hide AtMost;
    if names == {} then []
    else
      LeastExists(names);
      var n :| IsLeast(names, n);
      [n] + Sorted(names - {n})
  }

  lemma SortedStep(names: set<string>, n: string)
    requires IsLeast(names, n)
    ensures Sorted(names) == [n] + Sorted(names - {n})
  {
    hide AtMost, IsLeast;
    assert n in names by { LeastIsMember(names, n); }
    var h := Sorted(names)[0];
    assert IsLeast(names, h) && Sorted(names) == [h] + Sorted(names - {h});
    LeastIsUnique(names, n, h);
  }

  lemma LeastIsMember(names: set<string>, n: string)
    requires IsLeast(names, n)
    ensures n in names
  {
  }

  lemma SortedNone()
    ensures Sorted({}) == []
  {
  }

  method PickLeast(names: set<string>) returns (n: string)
    requires names != {}
    ensures IsLeast(names, n)
  {
    hide AtMost;
    LeastExists(names);
    n :| n in names && forall m :: m in names ==> AtMost(n, m);
  }

  method SortNames(names: set<string>) returns (sorted: seq<string>)
    ensures sorted == Sorted(names)
  {
    hide AtMost, Sorted, IsLeast;
    var left := names;
    sorted := [];
    while left != {}
      invariant left <= names
      invariant Sorted(names) == sorted + Sorted(left)
      decreases left
    {
      var n := PickLeast(left);
      SortedStep(left, n);
      sorted := sorted + [n];
      left := left - {n};
    }
    SortedNone();
  }

  // --- the generated file ----------------------------------------------------------------------

  function PortAcl(name: string): string { "vm_" + name + "_port" }

  function DomainsAcl(name: string): string { "vm_" + name + "_domains" }

  /** fmt's %d */
  function FormatInt(n: int): string {
    if n < 0 then "-" + Decimal(-n) else Decimal(n)
  }

  function RuleLines(name: string, port: int): seq<string> {
    ["acl " + PortAcl(name) + " localport " + FormatInt(port),
     "acl " + DomainsAcl(name) + " dstdomain " + ("\"" + VMListPath(name) + "\""),
     "http_access allow from_forward CONNECT " + PortAcl(name) + " " + DomainsAcl(name),
     "http_access deny " + PortAcl(name)]
  }

  const HEADER_TITLE := "# " + ("Generated by ptrbox - per-VM access " + "rules. Do not edit: the next sync")
  const HEADER_SOURCE := "# " + ("rewrites this file from the port " + "allocations and the per-VM allowlists")
  const HEADER_PLACE := "# " + ("under ~/.config/ptrbox/allowed_domains.d/ " + "on the host.")
  const HEADER := [HEADER_TITLE, HEADER_SOURCE, HEADER_PLACE]

  function AllRuleLines(names: seq<string>, ports: map<string, int>): seq<string>
    requires forall n <- names :: n in ports
  {
    if names == [] then [] else RuleLines(names[0], ports[names[0]]) + AllRuleLines(names[1..], ports)
  }

  ghost function AccessLines(ports: map<string, int>): seq<string> {
    HEADER + AllRuleLines(Sorted(ports.Keys), ports)
  }

  method VMAccessConf(ports: map<string, int>) returns (out: string)
    ensures out == Unlines(AccessLines(ports))
  {
    hide RuleLines, Sorted, Unlines, HEADER;
    var names := SortNames(ports.Keys);
    out := Unlines(HEADER);
    assert names[..0] == [] && HEADER + [] == HEADER;
    for i := 0 to |names|
      invariant out == Unlines(HEADER + AllRuleLines(names[..i], ports))
    {
      assert names[..i + 1] == names[..i] + [names[i]];
      AllRuleLinesSnoc(names[..i], names[i], ports);
      UnlinesAppend(HEADER + AllRuleLines(names[..i], ports), RuleLines(names[i], ports[names[i]]));
      assert HEADER + AllRuleLines(names[..i], ports) + RuleLines(names[i], ports[names[i]])
          == HEADER + (AllRuleLines(names[..i], ports) + RuleLines(names[i], ports[names[i]]));
      out := out + Unlines(RuleLines(names[i], ports[names[i]]));
    }
    assert names[..|names|] == names;
  }

  lemma {:induction false} AllRuleLinesSnoc(names: seq<string>, name: string, ports: map<string, int>)
    requires name in ports && forall n <- names :: n in ports
    ensures AllRuleLines(names + [name], ports) == AllRuleLines(names, ports) + RuleLines(name, ports[name])
  {
    hide RuleLines;
    if names != [] {
      assert (names + [name])[1..] == names[1..] + [name];
      AllRuleLinesSnoc(names[1..], name, ports);
    }
  }

  // --- how squid reads it ----------------------------------------------------------------------------

  /** A request as the proxy sees it: the port it arrived on, whether it is a CONNECT,
      whether its source is a permitted one, and the host it asks for. */
  datatype Request = Request(port: int, connect: bool, permitted: bool, host: string)

  datatype Acl =
    | FromForward
    | Connect
    | LocalPort(port: string)
    | DstDomain(path: string)
    | Custom(test: Request -> bool)

  /** A rule matches when each of its ACLs does; an ACL matches when one of its values does. */
  datatype Rule = Rule(allow: bool, acls: seq<seq<Acl>>)

  type Env = map<string, seq<Acl>>

  function Values(env: Env, name: string): seq<Acl> {
    if name in env then env[name] else []
  }

  function Named(env: Env, names: seq<string>): seq<seq<Acl>> {
    if names == [] then [] else [Values(env, names[0])] + Named(env, names[1..])
  }

  /** acl and http_access directives, read in order; other lines are comments here. */
  function ReadConf(lines: seq<string>, env: Env): seq<Rule> {
    if lines == [] then []
    else
      var t := Fields(lines[0]);
      if |t| == 4 && t[0] == "acl" && t[2] == "localport" then
        ReadConf(lines[1..], env[t[1] := Values(env, t[1]) + [LocalPort(t[3])]])
      else if |t| == 4 && t[0] == "acl" && t[2] == "dstdomain" && |t[3]| >= 2 then
        ReadConf(lines[1..], env[t[1] := Values(env, t[1]) + [DstDomain(t[3][1..|t[3]| - 1])]])
      else if |t| >= 2 && t[0] == "http_access" && (t[1] == "allow" || t[1] == "deny") then
        [Rule(t[1] == "allow", Named(env, t[2..]))] + ReadConf(lines[1..], env)
      else ReadConf(lines[1..], env)
  }

  /** What the template defines before the include. */
  const TEMPLATE_ENV: Env := map["from_forward" := [FromForward], "CONNECT" := [Connect]]

  /** squid's dstdomain: the name itself, or with a leading dot it and its subdomains. */
  predicate DomainMatches(entry: string, host: string) {
    || entry == host
    || ("." <= entry && (host == entry[1..] || (|host| >= |entry| && host[|host| - |entry|..] == entry)))
  }

  /** An entry serves one name, and with a leading dot every name under it as well. */
  lemma DomainMatchesExactly(entry: string, host: string)
    ensures DomainMatches(entry, host)
       <==> host == entry || exists name :: entry == "." + name && (host == name || exists sub :: host == sub + "." + name)
  {
    if "." <= entry {
      var name := entry[1..];
      assert entry == "." + name;
      if |host| >= |entry| && host[|host| - |entry|..] == entry {
        var sub := host[..|host| - |entry|];
        assert host == sub + "." + name;
      }
    }
    if name, sub :| entry == "." + name && host == sub + "." + name {
      assert host == sub + entry;
    }
  }

  predicate ListAllows(list: string, host: string) {
    exists e <- AllowEntries(list) :: DomainMatches(e, host)
  }

  function FileText(files: map<string, string>, path: string): string {
    if path in files then files[path] else ""
  }

  ghost predicate Matches(acl: Acl, r: Request, files: map<string, string>) {
    match acl
    case FromForward => r.permitted
    case Connect => r.connect
    case LocalPort(port) => port == FormatInt(r.port)
    case DstDomain(path) => ListAllows(FileText(files, path), r.host)
    case Custom(test) => test(r)
  }

  ghost predicate RuleMatches(rule: Rule, r: Request, files: map<string, string>) {
    forall i :: 0 <= i < |rule.acls| ==> AnyMatches(rule.acls[i], r, files)
  }

  ghost predicate AnyMatches(values: seq<Acl>, r: Request, files: map<string, string>) {
    exists i :: 0 <= i < |values| && Matches(values[i], r, files)
  }

  /** The first matching rule decides. */
  ghost function Decide(rules: seq<Rule>, r: Request, files: map<string, string>): Option<bool> {
    if rules == [] then None
    else if RuleMatches(rules[0], r, files) then Some(rules[0].allow)
    else Decide(rules[1..], r, files)
  }

  // --- reading the generated lines --------------------------------------------------------------------

  function RulesFor(name: string, port: int): seq<Rule> {
    [Rule(true, [[FromForward], [Connect], [LocalPort(FormatInt(port))], [DstDomain(VMListPath(name))]]),
     Rule(false, [[LocalPort(FormatInt(port))]])]
  }

  function AllRules(names: seq<string>, ports: map<string, int>): seq<Rule>
    requires forall n <- names :: n in ports
  {
    if names == [] then [] else RulesFor(names[0], ports[names[0]]) + AllRules(names[1..], ports)
  }

  ghost predicate NoSpaces(s: string) {
    forall c <- s :: !IsSpace(c)
  }

  lemma AclNamesDiffer(a: string, b: string)
    ensures PortAcl(a) != DomainsAcl(b)
    ensures PortAcl(a) == PortAcl(b) ==> a == b
    ensures DomainsAcl(a) == DomainsAcl(b) ==> a == b
    ensures PortAcl(a) !in TEMPLATE_ENV && DomainsAcl(a) !in TEMPLATE_ENV
  {
    assert PortAcl(a)[|PortAcl(a)| - 1] == 't' && DomainsAcl(b)[|DomainsAcl(b)| - 1] == 's';
    assert PortAcl(a)[3..|PortAcl(a)| - 5] == a && PortAcl(b)[3..|PortAcl(b)| - 5] == b;
    assert DomainsAcl(a)[3..|DomainsAcl(a)| - 8] == a && DomainsAcl(b)[3..|DomainsAcl(b)| - 8] == b;
    assert PortAcl(a)[0] == 'v' && DomainsAcl(a)[0] == 'v';
  }

  lemma FormatIsWord(n: int)
    ensures IsWord(FormatInt(n))
  {
    hide Decimal;
    var m: nat := if n < 0 then -n else n;
    DecimalDigits(m);
  }

  /** What the config says a port is, strconv.Atoi reads back. */
  lemma FormatReadsBack(n: int)
    ensures Atoi(FormatInt(n)) == Bounded(n)
  {
    hide Atoi, Decimal;
    var m: nat := if n < 0 then -n else n;
    NumberReads("", m);
    assert "-" + "" + Decimal(m) == "-" + Decimal(m) && "" + Decimal(m) == Decimal(m);
  }

  lemma FormatIsInjective(a: int, b: int)
    requires a >= 0 && b >= 0 && FormatInt(a) == FormatInt(b)
    ensures a == b
  {
    DecimalDigits(a);
    DecimalDigits(b);
  }

  lemma AclIsWord(name: string)
    requires NoSpaces(name)
    ensures IsWord(PortAcl(name)) && IsWord(DomainsAcl(name)) && IsWord("\"" + VMListPath(name) + "\"")
  {
  }

  lemma Join4(a: string, b: string, c: string, d: string)
    ensures Join([a, b, c, d], " ") == a + " " + b + " " + c + " " + d
  {
    assert Join([d], " ") == d;
    assert [c, d][1..] == [d] && [b, c, d][1..] == [c, d] && [a, b, c, d][1..] == [b, c, d];
    assert Join([c, d], " ") == c + " " + d;
    assert Join([b, c, d], " ") == b + " " + (c + " " + d);
    assert Join([a, b, c, d], " ") == a + " " + (b + " " + (c + " " + d));
    assert b + " " + (c + " " + d) == b + " " + c + " " + d;
    assert a + " " + (b + " " + c + " " + d) == a + " " + b + " " + c + " " + d;
  }

  lemma AclTokens(name: string, port: int)
    requires NoSpaces(name)
    ensures Fields(RuleLines(name, port)[0]) == ["acl", PortAcl(name), "localport", FormatInt(port)]
    ensures Fields(RuleLines(name, port)[1]) == ["acl", DomainsAcl(name), "dstdomain", "\"" + VMListPath(name) + "\""]
  {
    hide IsSpace, PortAcl, DomainsAcl, FormatInt, VMListPath, Fields, Join;
    AclIsWord(name);
    FormatIsWord(port);
    Keywords();
    var p, q := ["acl", PortAcl(name), "localport", FormatInt(port)],
                ["acl", DomainsAcl(name), "dstdomain", "\"" + VMListPath(name) + "\""];
    Join4(p[0], p[1], p[2], p[3]);
    Join4(q[0], q[1], q[2], q[3]);
    assert "acl " == "acl" + " " && " localport " == " " + "localport" + " " && " dstdomain " == " " + "dstdomain" + " ";
    assert "acl" + " " + p[1] + " " + "localport" + " " + p[3] == RuleLines(name, port)[0];
    assert "acl" + " " + q[1] + " " + "dstdomain" + " " + q[3] == RuleLines(name, port)[1];
    FieldsOfJoin(p);
    FieldsOfJoin(q);
  }

  lemma Keywords()
    ensures IsWord("acl") && IsWord("localport") && IsWord("dstdomain") && IsWord("http_access")
    ensures IsWord("allow") && IsWord("deny") && IsWord("from_forward") && IsWord("CONNECT")
  {
  }

  lemma Join3(a: string, b: string, c: string)
    ensures Join([a, b, c], " ") == a + " " + b + " " + c
  {
    assert Join([c], " ") == c;
    assert [b, c][1..] == [c] && [a, b, c][1..] == [b, c];
    assert Join([a, b, c], " ") == a + " " + (b + " " + c);
    assert a + " " + (b + " " + c) == a + " " + b + " " + c;
  }

  lemma JoinTwoMore(a: string, b: string, rest: seq<string>)
    requires rest != []
    ensures Join([a, b] + rest, " ") == a + " " + b + " " + Join(rest, " ")
  {
    assert ([b] + rest)[1..] == rest && ([a, b] + rest)[1..] == [b] + rest;
    var tail := Join(rest, " ");
    assert Join([b] + rest, " ") == b + " " + tail;
    assert a + " " + (b + " " + tail) == a + " " + b + " " + tail;
  }

  lemma AllowTokens(name: string, port: int)
    requires NoSpaces(name)
    ensures Fields(RuleLines(name, port)[2]) == ["http_access", "allow", "from_forward", "CONNECT", PortAcl(name), DomainsAcl(name)]
  {
    hide IsSpace, PortAcl, DomainsAcl, FormatInt, VMListPath, Fields, Join;
    AclIsWord(name);
    Keywords();
    var tail := ["from_forward", "CONNECT", PortAcl(name), DomainsAcl(name)];
    var p := ["http_access", "allow"] + tail;
    Join4(tail[0], tail[1], tail[2], tail[3]);
    JoinTwoMore("http_access", "allow", tail);
    FieldsOfJoin(p);
    assert "http_access allow from_forward CONNECT " == "http_access" + " " + "allow" + " " + "from_forward" + " " + "CONNECT" + " ";
    assert Join(p, " ") == RuleLines(name, port)[2];
  }

  lemma DenyTokens(name: string, port: int)
    requires NoSpaces(name)
    ensures Fields(RuleLines(name, port)[3]) == ["http_access", "deny", PortAcl(name)]
  {
    hide IsSpace, PortAcl, DomainsAcl, FormatInt, VMListPath, Fields, Join;
    AclIsWord(name);
    Keywords();
    Join3("http_access", "deny", PortAcl(name));
    FieldsOfJoin(["http_access", "deny", PortAcl(name)]);
    assert "http_access deny " == "http_access" + " " + "deny" + " ";
    assert "http_access" + " " + "deny" + " " + PortAcl(name) == RuleLines(name, port)[3];
  }

  ghost predicate Unused(env: Env, names: seq<string>) {
    && (forall n <- names :: PortAcl(n) !in env && DomainsAcl(n) !in env)
    && Values(env, "from_forward") == [FromForward] && Values(env, "CONNECT") == [Connect]
  }

  ghost function EnvWith(env: Env, name: string, port: int): Env {
    env[PortAcl(name) := [LocalPort(FormatInt(port))]][DomainsAcl(name) := [DstDomain(VMListPath(name))]]
  }

  lemma ReadBlock(name: string, port: int, rest: seq<string>, env: Env, names: seq<string>)
    requires NoSpaces(name) && Unused(env, names) && name in names
    ensures ReadConf(RuleLines(name, port) + rest, env) == RulesFor(name, port) + ReadConf(rest, EnvWith(env, name, port))
  {
    hide PortAcl, DomainsAcl, FormatInt, VMListPath, Fields, RuleLines;
    AclTokens(name, port);
    AllowTokens(name, port);
    DenyTokens(name, port);
    AclNamesDiffer(name, name);
    var block := RuleLines(name, port);
    FourLines(name, port);
    var e1 := env[PortAcl(name) := [LocalPort(FormatInt(port))]];
    var e2 := EnvWith(env, name, port);
    var quoted := "\"" + VMListPath(name) + "\"";
    assert quoted[1..|quoted| - 1] == VMListPath(name);
    var l3 := [block[3]] + rest;
    var l2 := [block[2]] + l3;
    var l1 := [block[1]] + l2;
    assert block + rest == [block[0]] + l1;
    assert ([block[0]] + l1)[1..] == l1 && l1[1..] == l2 && l2[1..] == l3 && l3[1..] == rest;
    assert [] + [LocalPort(FormatInt(port))] == [LocalPort(FormatInt(port))];
    assert [] + [DstDomain(VMListPath(name))] == [DstDomain(VMListPath(name))];
    assert ReadConf([block[0]] + l1, env) == ReadConf(l1, e1);
    assert ReadConf(l1, e1) == ReadConf(l2, e2);
    var t2, t3 := Fields(block[2])[2..], Fields(block[3])[2..];
    AclNamed(e2, name, port);
    assert t2 == ["from_forward", "CONNECT", PortAcl(name), DomainsAcl(name)] && t3 == [PortAcl(name)];
    assert Values(e2, "from_forward") == [FromForward] && Values(e2, "CONNECT") == [Connect];
    assert ReadConf(l2, e2) == [Rule(true, Named(e2, t2))] + ReadConf(l3, e2);
    assert ReadConf(l3, e2) == [Rule(false, Named(e2, t3))] + ReadConf(rest, e2);
  }

  lemma FourLines(name: string, port: int)
    ensures |RuleLines(name, port)| == 4
  {
  }

  lemma AclNamed(env: Env, name: string, port: int)
    requires Values(env, "from_forward") == [FromForward] && Values(env, "CONNECT") == [Connect]
    requires Values(env, PortAcl(name)) == [LocalPort(FormatInt(port))]
    requires Values(env, DomainsAcl(name)) == [DstDomain(VMListPath(name))]
    ensures Named(env, ["from_forward", "CONNECT", PortAcl(name), DomainsAcl(name)])
         == [[FromForward], [Connect], [LocalPort(FormatInt(port))], [DstDomain(VMListPath(name))]]
    ensures Named(env, [PortAcl(name)]) == [[LocalPort(FormatInt(port))]]
  {
    hide PortAcl, DomainsAcl, FormatInt, VMListPath, Values;
    var p, d := PortAcl(name), DomainsAcl(name);
    assert Named(env, []) == [];
    assert [d][1..] == [] && [p][1..] == [] && [p, d][1..] == [d];
    assert ["CONNECT", p, d][1..] == [p, d] && ["from_forward", "CONNECT", p, d][1..] == ["CONNECT", p, d];
    assert Named(env, [d]) == [Values(env, d)] && Named(env, [p, d]) == [Values(env, p)] + [Values(env, d)];
  }

  lemma {:induction false} ReadAll(names: seq<string>, ports: map<string, int>, env: Env)
    requires forall n <- names :: n in ports && NoSpaces(n)
    requires forall i, j :: 0 <= i < j < |names| ==> names[i] != names[j]
    requires Unused(env, names)
    ensures ReadConf(AllRuleLines(names, ports), env) == AllRules(names, ports)
  {
    hide PortAcl, DomainsAcl, RuleLines, RulesFor, NoSpaces, ReadConf, VMListPath, FormatInt;
    if names == [] {
      NothingRead(env);
    } else {
      var n := names[0];
      ReadBlock(n, ports[n], AllRuleLines(names[1..], ports), env, names);
      forall m | m in names[1..]
        ensures PortAcl(m) !in EnvWith(env, n, ports[n]) && DomainsAcl(m) !in EnvWith(env, n, ports[n])
      {
        AclNamesDiffer(m, n);
        AclNamesDiffer(n, m);
        assert m in names;
      }
      AclNamesDiffer(n, n);
      ReadAll(names[1..], ports, EnvWith(env, n, ports[n]));
    }
  }

  lemma NothingRead(env: Env)
    ensures ReadConf([], env) == []
  {
  }

  lemma HeaderIsComment()
    ensures |HEADER_TITLE| >= 2 && HEADER_TITLE[..2] == "# "
    ensures |HEADER_SOURCE| >= 2 && HEADER_SOURCE[..2] == "# "
    ensures |HEADER_PLACE| >= 2 && HEADER_PLACE[..2] == "# "
  {
  }

  lemma HeaderIsSkipped(lines: seq<string>, env: Env)
    ensures ReadConf(HEADER + lines, env) == ReadConf(lines, env)
  {
    hide ReadConf, HEADER_TITLE, HEADER_SOURCE, HEADER_PLACE;
    HeaderIsComment();
    var a, b, c := HEADER_TITLE, HEADER_SOURCE, HEADER_PLACE;
    CommentSkipped(c, lines, env);
    CommentSkipped(b, [c] + lines, env);
    CommentSkipped(a, [b] + ([c] + lines), env);
    assert HEADER + lines == [a] + ([b] + ([c] + lines));
  }

  lemma CommentSkipped(line: string, rest: seq<string>, env: Env)
    requires |line| >= 2 && line[..2] == "# "
    ensures ReadConf([line] + rest, env) == ReadConf(rest, env)
  {
    FieldsOfWordThen("#", line[1..]);
    assert line == "#" + line[1..];
    assert ([line] + rest)[1..] == rest;
  }

  /** The generated text means, to squid, an allow and a cap for each VM in name order. */
  lemma ConfMeansRules(ports: map<string, int>)
    requires forall n :: n in ports ==> NoSpaces(n)
    ensures ReadConf(AccessLines(ports), TEMPLATE_ENV) == AllRules(Sorted(ports.Keys), ports)
  {
    hide NoSpaces, ReadConf, HEADER, Sorted, Unused, AllRules, AllRuleLines;
    var names := Sorted(ports.Keys);
    HeaderIsSkipped(AllRuleLines(names, ports), TEMPLATE_ENV);
    TemplateUnused(names);
    ReadAll(names, ports, TEMPLATE_ENV);
  }

  lemma TemplateUnused(names: seq<string>)
    ensures Unused(TEMPLATE_ENV, names)
  {
    hide PortAcl, DomainsAcl;
    forall n | n in names ensures PortAcl(n) !in TEMPLATE_ENV && DomainsAcl(n) !in TEMPLATE_ENV {
      AclNamesDiffer(n, n);
    }
  }

  // --- isolation ---------------------------------------------------------------------------------------

  lemma {:induction false} DecideAppend(a: seq<Rule>, b: seq<Rule>, r: Request, files: map<string, string>)
    ensures Decide(a + b, r, files) == if Decide(a, r, files).Some? then Decide(a, r, files) else Decide(b, r, files)
  {
    hide RuleMatches;
    if a == [] {
      assert a + b == b;
    } else {
      assert (a + b)[1..] == a[1..] + b;
      DecideAppend(a[1..], b, r, files);
    }
  }

  lemma {:induction false} DenyOnly(rules: seq<Rule>, r: Request, files: map<string, string>)
    requires forall rule <- rules :: !rule.allow
    ensures Decide(rules, r, files).Some? ==> Decide(rules, r, files) == Some(false)
  {
    hide RuleMatches;
    if rules != [] {
      assert rules[0] in rules;
      DenyOnly(rules[1..], r, files);
    }
  }

  /** What one VM's two rules decide. */
  lemma BlockDecides(name: string, port: int, r: Request, files: map<string, string>)
    ensures Decide(RulesFor(name, port), r, files)
         == if FormatInt(port) != FormatInt(r.port) then None
            else Some(r.permitted && r.connect && ListAllows(FileText(files, VMListPath(name)), r.host))
  {
    hide FormatInt, ListAllows, VMListPath, FileText, AnyMatches;
    var rules := RulesFor(name, port);
    var pass, cap := rules[0], rules[1];
    assert rules[1..] == [cap] && [cap][1..] == [];
    SingletonMatches(FromForward, r, files);
    SingletonMatches(Connect, r, files);
    SingletonMatches(LocalPort(FormatInt(port)), r, files);
    SingletonMatches(DstDomain(VMListPath(name)), r, files);
    var acls := pass.acls;
    assert Decide([], r, files) == None;
    assert Decide([cap], r, files) == if RuleMatches(cap, r, files) then Some(false) else None;
    assert Decide(rules, r, files) == if RuleMatches(pass, r, files) then Some(true) else Decide([cap], r, files);
    assert RuleMatches(cap, r, files) <==> AnyMatches(cap.acls[0], r, files);
    assert RuleMatches(pass, r, files) <==> AnyMatches(acls[0], r, files) && AnyMatches(acls[1], r, files)
                                            && AnyMatches(acls[2], r, files) && AnyMatches(acls[3], r, files);
  }

  lemma SingletonMatches(acl: Acl, r: Request, files: map<string, string>)
    ensures AnyMatches([acl], r, files) <==> Matches(acl, r, files)
  {
    hide Matches;
    assert [acl][0] == acl;
  }

  lemma {:induction false} AllDecide(names: seq<string>, ports: map<string, int>, name: string, r: Request, files: map<string, string>)
    requires forall n <- names :: n in ports && ports[n] >= 0
    requires r.port >= 0
    ensures (forall n <- names :: ports[n] != r.port) ==> Decide(AllRules(names, ports), r, files) == None
    ensures name in names && ports[name] == r.port && (forall n <- names :: ports[n] == r.port ==> n == name) ==>
              Decide(AllRules(names, ports), r, files)
              == Some(r.permitted && r.connect && ListAllows(FileText(files, VMListPath(name)), r.host))
  {
    hide FormatInt, ListAllows, VMListPath, FileText, RulesFor, RuleMatches;
    if names != [] {
      var n := names[0];
      BlockDecides(n, ports[n], r, files);
      DecideAppend(RulesFor(n, ports[n]), AllRules(names[1..], ports), r, files);
      AllDecide(names[1..], ports, name, r, files);
      if FormatInt(ports[n]) == FormatInt(r.port) {
        FormatIsInjective(ports[n], r.port);
      }
      assert names == [n] + names[1..];
    }
  }

  /** squid's answer with deny rules above the generated file and any rules below it. */
  ghost function Verdict(above: seq<Rule>, ports: map<string, int>, below: seq<Rule>, r: Request, files: map<string, string>): Option<bool> {
    Decide(above + ReadConf(AccessLines(ports), TEMPLATE_ENV) + below, r, files)
  }

  /** Egress isolation: on a VM's own port, what the rules above do not deny is allowed
      exactly when it is a CONNECT from a permitted source to a domain of that VM's list;
      nothing below the generated file has a say. */
  lemma Isolation(above: seq<Rule>, dir: Dir, below: seq<Rule>, name: string, r: Request, files: map<string, string>)
    requires Ledger(dir) && forall n :: n in Held(dir) ==> VMName(n)
    requires forall rule <- above :: !rule.allow
    requires name in Held(dir) && r.port == Held(dir)[name]
    ensures Verdict(above, Held(dir), below, r, files)
         == if Decide(above, r, files).Some? then Some(false)
            else Some(r.permitted && r.connect && ListAllows(FileText(files, VMListPath(name)), r.host))
  {
    hide ListAllows, VMListPath, FileText, AllRules, AccessLines, RuleMatches, Decide, Held, Readable, Sorted, ReadConf;
    var ports := Held(dir);
    NamesHaveNoSpaces(ports);
    ConfMeansRules(ports);
    var rules := ReadConf(AccessLines(ports), TEMPLATE_ENV);
    DecideAppend(above + rules, below, r, files);
    DecideAppend(above, rules, r, files);
    DenyOnly(above, r, files);
    var names := Sorted(ports.Keys);
    assert name in names && forall n <- names :: n in ports;
    assert forall n <- names :: ports[n] == r.port ==> n == name;
    AllDecide(names, ports, name, r, files);
    assert rules == AllRules(names, ports);
  }

  lemma NamesHaveNoSpaces(ports: map<string, int>)
    requires forall n :: n in ports ==> VMName(n)
    ensures forall n :: n in ports ==> NoSpaces(n)
  {
  }

  /** A port nobody holds gets what the template alone says. */
  lemma UnheldPort(above: seq<Rule>, dir: Dir, below: seq<Rule>, r: Request, files: map<string, string>)
    requires Ledger(dir) && forall n :: n in Held(dir) ==> VMName(n)
    requires r.port >= 0 && r.port !in Held(dir).Values
    ensures Verdict(above, Held(dir), below, r, files) == Decide(above + below, r, files)
  {
    hide ListAllows, VMListPath, FileText, AllRules, AccessLines, RuleMatches, Decide, Held, Readable, Sorted, ReadConf;
    var ports := Held(dir);
    NamesHaveNoSpaces(ports);
    ConfMeansRules(ports);
    var rules := ReadConf(AccessLines(ports), TEMPLATE_ENV);
    assert forall n :: n in ports ==> ports[n] in ports.Values;
    DecideAppend(above + rules, below, r, files);
    DecideAppend(above, rules, r, files);
    DecideAppend(above, below, r, files);
    AllDecide(Sorted(ports.Keys), ports, "", r, files);
  }

  /** No other VM's list or allocation, and no rule below, changes a VM's verdict. */
  lemma NonInterference(above: seq<Rule>, dir: Dir, dir': Dir, below: seq<Rule>, below': seq<Rule>,
                        name: string, r: Request, files: map<string, string>, files': map<string, string>)
    requires Ledger(dir) && Ledger(dir')
    requires forall n :: n in Held(dir) || n in Held(dir') ==> VMName(n)
    requires forall rule <- above :: !rule.allow
    requires Decide(above, r, files) == Decide(above, r, files')
    requires name in Held(dir) && name in Held(dir') && Held(dir)[name] == Held(dir')[name] == r.port
    requires FileText(files, VMListPath(name)) == FileText(files', VMListPath(name))
    ensures Verdict(above, Held(dir), below, r, files) == Verdict(above, Held(dir'), below', r, files')
  {
    hide ListAllows, VMListPath, FileText, Verdict, Decide, Held, Readable;
    Isolation(above, dir, below, name, r, files);
    Isolation(above, dir', below', name, r, files');
  }
}
