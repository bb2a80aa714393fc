/** Adding domains to a list by name: assertDomain, allowEntries, allowContains and
    appendDomains of internal/cli/allow.go. */
module Domains {
  import opened Text
  import opened Allowlist
  import opened AllowlistLines

  /** assertDomain: only what is plainly a hostname may reach a list. */
  predicate ValidDomain(domain: string) {
    && domain != "" && domain != "."
    && domain[0] != '-'
    && domain[|domain| - 1] != '.'
    && (forall c <- domain :: c == '.' || c == '-' || 'a' <= c <= 'z' || 'A' <= c <= 'Z' || '0' <= c <= '9')
    && '.' in domain
  }

  /** allowEntries */
  function AllowEntries(body: string): seq<string> {
    EntryDomains(ScanLines(body))
  }

  function AppendDomain(body: string, domain: string): string {
    if domain in AllowEntries(body) then body
    else (if body != "" && body[|body| - 1] != '\n' then body + "\n" else body) + domain + "\n"
  }

  function AppendDomains(body: string, domains: seq<string>): string {
    if domains == [] then body
    else AppendDomain(AppendDomains(body, domains[..|domains| - 1]), domains[|domains| - 1])
  }

  /** The domains of `asked` that `held` lacks, each once, in the order asked. */
  function Fresh(held: seq<string>, asked: seq<string>): seq<string> {
    if asked == [] then []
    else
      var before := Fresh(held, asked[..|asked| - 1]);
      var d := asked[|asked| - 1];
      if d in held || d in before then before else before + [d]
  }

  method ScanEntries(body: string) returns (entries: seq<string>)
    ensures entries == AllowEntries(body)
  {
    hide ScanLines;
    var lines := ScanLines(body);
    entries := [];
    for i := 0 to |lines|
      invariant entries == EntryDomains(lines[..i])
    {
      assert lines[..i + 1] == lines[..i] + [lines[i]];
      EntriesAppend(lines[..i], [lines[i]]);
      var line := TrimSpace(lines[i]);
      if line != "" && !("#" <= line) {
        TrimmedHasField(lines[i]);
        entries := entries + [Fields(line)[0]];
        EntryIsNamed(lines[i]);
      }
    }
    assert lines[..|lines|] == lines;
  }

  lemma EntryIsNamed(line: string)
    requires TrimSpace(line) != "" && !("#" <= TrimSpace(line))
    ensures Fields(TrimSpace(line)) != [] && DomainOf(line) == Fields(TrimSpace(line))[0] != ""
  {
    TrimmedHasField(line);
    FieldsAreWords(TrimSpace(line));
    assert Fields(TrimSpace(line))[0] in Fields(TrimSpace(line));
  }

  /** appendDomains: None when a domain is refused, otherwise the new text. A batch with
      one bad domain produces no text at all. */
  method Append(original: string, domains: seq<string>) returns (result: Option<(string, bool)>)
    ensures (exists d <- domains :: !ValidDomain(d)) ==> result == None
    ensures (forall d <- domains :: ValidDomain(d)) ==>
              result == Some((AppendDomains(original, domains), Fresh(AllowEntries(original), domains) != []))
  {
    hide ValidDomain, AllowEntries;
    for i := 0 to |domains|
      invariant forall j :: 0 <= j < i ==> ValidDomain(domains[j])
    {
      if !ValidDomain(domains[i]) {
        return None;
      }
    }
    var body := original;
    var added := 0;
    for i := 0 to |domains|
      invariant body == AppendDomains(original, domains[..i])
      invariant added == |Fresh(AllowEntries(original), domains[..i])|
    {
      assert domains[..i + 1][..i] == domains[..i];
      AppendedEntries(original, domains[..i]);
      var entries := ScanEntries(body);
      if domains[i] !in entries {
        if |body| > 0 && body[|body| - 1] != '\n' {
          body := body + "\n";
        }
        body := body + domains[i] + "\n";
        added := added + 1;
      }
    }
    assert domains[..|domains|] == domains;
    return Some((body, added > 0));
  }

  lemma ValidDomainIsEntry(domain: string)
    requires ValidDomain(domain)
    ensures IsWord(domain) && OneLine(domain) && DomainOf(domain) == domain
  {
    assert forall c <- domain :: !IsSpace(c);
    assert domain[0] in domain;
    WordAsLine(domain);
  }

  /** Appending a valid domain adds exactly that entry, at the end, and rewrites nothing. */
  lemma AppendDomainAdds(body: string, domain: string)
    requires ValidDomain(domain)
    ensures AllowEntries(AppendDomain(body, domain))
         == AllowEntries(body) + (if domain in AllowEntries(body) then [] else [domain])
    ensures body <= AppendDomain(body, domain)
    ensures domain !in AllowEntries(body) ==> AppendDomain(body, domain) == Unlines(ScanLines(body) + [domain])
  {
    hide ScanLines, DomainOf, ValidDomain;
    ValidDomainIsEntry(domain);
    if domain !in AllowEntries(body) {
      var lines := ScanLines(body);
      UnlinesOfScan(body);
      UnlinesAppend(lines, [domain]);
      assert Unlines([domain]) == domain + "\n";
      ScannedLinesAreLines(body);
      ScanOfUnlines(lines + [domain]);
      EntriesAppend(lines, [domain]);
      assert AppendDomain(body, domain) == Unlines(lines + [domain]);
    }
  }

  /** A valid batch extends the list by exactly the domains it lacked, without duplicates. */
  lemma {:induction false} AppendedEntries(body: string, domains: seq<string>)
    requires forall d <- domains :: ValidDomain(d)
    ensures AllowEntries(AppendDomains(body, domains)) == AllowEntries(body) + Fresh(AllowEntries(body), domains)
    ensures body <= AppendDomains(body, domains)
  {
    hide ValidDomain, AllowEntries, AppendDomain;
    if domains != [] {
      var before := domains[..|domains| - 1];
      AppendedEntries(body, before);
      AppendDomainAdds(AppendDomains(body, before), domains[|domains| - 1]);
    }
  }

  lemma {:induction false} FreshIsNew(held: seq<string>, asked: seq<string>)
    ensures forall d :: d in Fresh(held, asked) <==> d in asked && d !in held
    ensures forall i, j :: 0 <= i < j < |Fresh(held, asked)| ==> Fresh(held, asked)[i] != Fresh(held, asked)[j]
  {
    if asked != [] {
      FreshIsNew(held, asked[..|asked| - 1]);
      assert asked == asked[..|asked| - 1] + [asked[|asked| - 1]];
    }
  }

  predicate HostChar(c: char) {
    c in SMALL || c in LARGE || c in FIGURES || c == '-'
  }

  lemma HostCharsAre(c: char)
    ensures HostChar(c) <==> c == '-' || 'a' <= c <= 'z' || 'A' <= c <= 'Z' || '0' <= c <= '9'
  {
    hide SMALL, LARGE, FIGURES;
    SmallLetters(c);
    LargeLetters(c);
    Figures(c);
  }

  lemma HostCharsAll(domain: string)
    ensures (forall c <- domain :: c == '.' || c == '-' || 'a' <= c <= 'z' || 'A' <= c <= 'Z' || '0' <= c <= '9')
       <==> forall l <- Split(domain, '.') :: forall c <- l :: HostChar(c)
  {
    hide HostChar, Split;
    Labels(domain);
    JoinOfSplit(domain, '.');
    forall c: char ensures HostChar(c) <==> c == '-' || 'a' <= c <= 'z' || 'A' <= c <= 'Z' || '0' <= c <= '9' {
      HostCharsAre(c);
    }
    var labels := Split(domain, '.');
    if forall l <- labels :: forall c <- l :: HostChar(c) {
      forall c | c in domain ensures c == '.' || HostChar(c) {
        if c != '.' {
          var l :| l in labels && c in l;
        }
      }
    }
    if forall c <- domain :: c == '.' || HostChar(c) {
      forall l, c | l in labels && c in l ensures HostChar(c) {
        assert c != '.';
      }
    }
  }

  /** What is let through: at least two labels of letters, digits and hyphens between dots, the
      last not empty and the first not starting with a hyphen. */
  lemma ValidDomainExactly(domain: string)
    ensures ValidDomain(domain) <==>
              var labels := Split(domain, '.');
              && |labels| >= 2 && labels[|labels| - 1] != "" && !("-" <= labels[0])
              && forall l <- labels :: forall c <- l :: HostChar(c)
  {
    hide HostChar;
    HostCharsAll(domain);
    Labels(domain);
    FirstLabel(domain);
    hide Split;
    if domain == "." {
      assert domain[|domain| - 1] == '.';
    }
  }

  lemma FirstLabel(s: string)
    ensures s != "" ==> ("-" <= Split(s, '.')[0] <==> s[0] == '-')
  {
    var k := IndexOf(s, '.');
    assert Split(s, '.')[0] == s[..k];
  }

  lemma SplitOnce(s: string)
    ensures var k := IndexOf(s, '.');
            Split(s, '.') == if k == |s| then [s] else [s[..k]] + Split(s[k + 1..], '.')
  {
    hide IndexOf;
  }

  lemma FirstDot(s: string, k: nat)
    requires k == IndexOf(s, '.')
    ensures '.' in s <==> k < |s|
    ensures k < |s| ==> s == s[..k] + ['.'] + s[k + 1..]
    ensures k < |s| ==> (s[|s| - 1] == '.' <==> s[k + 1..] == "" || s[k + 1..][|s[k + 1..]| - 1] == '.')
  {
    if k < |s| {
      assert s[k] == '.';
    } else {
      assert forall i :: 0 <= i < |s| ==> s[i] != '.';
    }
  }

  /** How a text and its labels hang together. */
  lemma {:induction false} Labels(s: string)
    ensures var labels := Split(s, '.');
            && (|labels| >= 2 <==> '.' in s)
            && (labels[|labels| - 1] == "" <==> s == "" || s[|s| - 1] == '.')
    ensures forall c: char :: c != '.' ==> (c in s <==> exists l <- Split(s, '.') :: c in l)
    decreases |s|
  {
    hide Split, IndexOf;
    var k := IndexOf(s, '.');
    SplitOnce(s);
    FirstDot(s, k);
    if k < |s| {
      Labels(s[k + 1..]);
      forall c: char | c != '.' ensures c in s <==> exists l <- Split(s, '.') :: c in l {
        InLabels(s[..k], s[k + 1..], Split(s[k + 1..], '.'), c);
      }
    } else {
      assert s in [s];
    }
  }

  lemma InLabels(head: string, tail: string, labels: seq<string>, c: char)
    requires c != '.' && (c in tail <==> exists l <- labels :: c in l)
    ensures c in head + ['.'] + tail <==> exists l <- [head] + labels :: c in l
  {
    assert c in head + ['.'] + tail <==> c in head || c in tail;
    assert head in [head] + labels && forall l <- labels :: l in [head] + labels;
  }
}
