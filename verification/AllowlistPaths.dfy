/** Path independence: whatever configurations a list was reconciled against on the way, it
    ends with the entries a fresh seed for the last one would hold, then the entries the
    person appended. It holds exactly for templates in which a group repeating an earlier
    group's label has no entries of its own. */
module AllowlistPaths {
  import opened Text
  import opened Allowlist
  import opened AllowlistLines
  import opened AllowlistDocs
  import opened AllowlistSeeds
  import opened Domains

  // --- what is asked of the template ---------------------------------------------------------

  /** A group that repeats an earlier label has no entries: findGroup never reaches it. */
  ghost predicate TwinsEmpty(groups: seq<Group>) {
    forall i, j :: 0 <= i < j < |groups| && groups[i].Label() == groups[j].Label() ==> groups[j].Domains() == []
  }

  ghost predicate DistinctLabels(groups: seq<Group>) {
    forall i, j :: 0 <= i < j < |groups| ==> groups[i].Label() != groups[j].Label()
  }

  ghost predicate Twins(t: Doc, i: int, j: int)
    requires 0 <= i < |t| && 0 <= j < |t|
  {
    t[i].Block? && t[j].Block? && t[i].AsGroup().Label() == t[j].AsGroup().Label()
  }

  ghost predicate TwinsEmptyDoc(t: Doc) {
    forall i, j :: 0 <= i < j < |t| && Twins(t, i, j) ==> t[j].AsGroup().Domains() == []
  }

  ghost predicate DistinctDoc(t: Doc) {
    forall i, j :: 0 <= i < j < |t| ==> !Twins(t, i, j)
  }

  ghost predicate IsFirst(t: Doc, k: int)
    requires 0 <= k < |t|
  {
    forall i :: 0 <= i < k ==> !Twins(t, i, k)
  }

  lemma {:induction false} DocGroupsAppend(a: Doc, b: Doc)
    ensures DocGroups(a + b) == DocGroups(a) + DocGroups(b)
  {
    hide Seg.AsGroup;
    if a == [] {
      assert a + b == b;
    } else {
      var whole := a + b;
      assert whole[0] == a[0] && whole[1..] == a[1..] + b;
      DocGroupsAppend(a[1..], b);
      var first := if a[0].Block? then [a[0].AsGroup()] else [];
      assert DocGroups(whole) == first + DocGroups(whole[1..]);
      assert DocGroups(a) == first + DocGroups(a[1..]);
    }
  }

  lemma GroupAt(t: Doc, k: nat)
    requires k < |t| && t[k].Block?
    ensures |DocGroups(t[..k])| < |DocGroups(t)| && DocGroups(t)[|DocGroups(t[..k])|] == t[k].AsGroup()
  {
    DocGroupsAppend(t[..k], t[k..]);
    assert t == t[..k] + t[k..];
    DocGroupsAppend([t[k]], t[k + 1..]);
    assert t[k..] == [t[k]] + t[k + 1..];
  }

  lemma GroupBefore(t: Doc, i: nat, k: nat)
    requires i < k <= |t| && t[i].Block?
    ensures |DocGroups(t[..i])| < |DocGroups(t[..k])|
  {
    assert t[..k][..i] == t[..i];
    GroupAt(t[..k], i);
  }

  lemma TwinsInGroups(t: Doc)
    ensures TwinsEmpty(DocGroups(t)) ==> TwinsEmptyDoc(t)
    ensures DistinctLabels(DocGroups(t)) ==> DistinctDoc(t)
  {
    forall i, j | 0 <= i < j < |t| && Twins(t, i, j)
      ensures TwinsEmpty(DocGroups(t)) ==> t[j].AsGroup().Domains() == []
      ensures !DistinctLabels(DocGroups(t))
    {
      GroupAt(t, i);
      GroupAt(t, j);
      GroupBefore(t, i, j);
    }
  }

  // --- one reconcile ---------------------------------------------------------------------------

  /** The same document but for what is inside its blocks. */
  ghost predicate Loose(d: Doc, t: Doc) {
    && |d| == |t|
    && forall i :: 0 <= i < |t| ==> SameShell(d[i], t[i])
  }

  ghost predicate SameShell(s: Seg, t: Seg) {
    if t.Plain? then s == t
    else
      && s.Block? && s.open == t.open && s.close == t.close
      && forall l <- s.inside :: KindOf(l) == Other && OneLine(l)
  }

  ghost function AdjustSeg(s: Seg, t: Seg, wants: Features): Seg {
    if s.Plain? || t.Plain? then s
    else s.(inside := Adjust(s.inside, t.AsGroup(), t.AsGroup().WantedBy(wants)))
  }

  lemma AdjustEntries(inside: seq<string>, g: Group, wanted: bool)
    ensures EntryDomains(inside) == g.Domains() || EntryDomains(inside) == [] ==>
              EntryDomains(Adjust(inside, g, wanted)) == if wanted then g.Domains() else []
    ensures g.Domains() == [] ==> EntryDomains(Adjust(inside, g, wanted)) == EntryDomains(inside)
  {
    hide DomainOf, IsNote, NonNotes, EntryDomains, Without, Dropped;
    if wanted {
      NonNotesKeepEntries(inside);
      EntriesAppend(NonNotes(inside), g.lines);
    } else {
      var kept := Without(inside, g.Domains());
      WithoutFacts(inside, g.Domains());
      WrittenNote(g.features);
      NoteIsPlain(OmittedNote(g.features));
      NoEntries([OmittedNote(g.features)]);
      EntriesAppend([OmittedNote(g.features)], kept);
      if EntryDomains(kept) != [] {
        var d := EntryDomains(kept)[0];
        assert d in EntryDomains(inside) && d !in g.Domains();
      }
      if Dropped(inside, g.Domains()) != [] {
        assert Dropped(inside, g.Domains())[0] in g.Domains();
      }
    }
  }

  lemma FirstTwin(t: Doc, k: nat) returns (f: nat)
    requires k < |t| && t[k].Block?
    ensures f <= k && Twins(t, f, k)
    ensures forall i :: 0 <= i < f ==> !Twins(t, i, k)
  {
    f := 0;
    while !Twins(t, f, k)
      invariant f <= k
      invariant forall i :: 0 <= i < f ==> !Twins(t, i, k)
      decreases k - f
    {
      f := f + 1;
    }
  }

  lemma TagsAgree(d: Doc, t: Doc, i: nat, k: nat)
    requires AcceptedDoc(t) && Loose(d, t) && i < |t| && k < |t| && t[k].Block?
    ensures HasTag(d[i], t[k].AsGroup().Label()) == Twins(t, i, k)
    ensures d[i].Shaped()
  {
    hide KindOf, Accepted, OneLine;
    assert t[i] in t && t[k] in t && SameShell(d[i], t[i]);
    ShapeOf(t[i]);
    ShapeOf(t[k]);
  }

  lemma LooseShaped(d: Doc, t: Doc)
    requires AcceptedDoc(t) && Loose(d, t)
    ensures Shaped(d)
  {
    hide KindOf, Accepted, OneLine;
    forall s | s in d ensures s.Shaped() {
      var i :| 0 <= i < |d| && d[i] == s;
      assert t[i] in t && SameShell(d[i], t[i]);
      ShapeOf(t[i]);
    }
  }

  /** The turn of reconcile for the block at `k`: it rewrites the first block of that label. */
  lemma StepOnBlock(d: Doc, t: Doc, k: nat, wants: Features) returns (f: nat, d': Doc)
    requires AcceptedDoc(t) && Loose(d, t) && k < |t| && t[k].Block?
    ensures f <= k && Twins(t, f, k) && IsFirst(t, f)
    ensures d' == d[f := d[f].(inside := Adjust(d[f].inside, t[k].AsGroup(), t[k].AsGroup().WantedBy(wants)))]
    ensures Loose(d', t)
    ensures Step(Flatten(d), t[k].AsGroup(), wants) == Flatten(d')
  {
    hide KindOf, Accepted, OneLine, Step, Adjust, Flatten, Fields, ParseMarker;
    f := FirstTwin(t, k);
    var g := t[k].AsGroup();
    forall i | 0 <= i <= f ensures HasTag(d[i], g.Label()) == Twins(t, i, k) {
      TagsAgree(d, t, i, k);
    }
    LooseShaped(d, t);
    StepInDoc(d, f, g, wants);
    var adjusted := Adjust(d[f].inside, g, g.WantedBy(wants));
    d' := d[f := d[f].(inside := adjusted)];
    assert t[k] in t && t[f] in t && SameShell(d[f], t[f]);
    ShapeOf(t[k]);
    AdjustStaysPlain(d[f].inside, g, g.WantedBy(wants));
    forall i | 0 <= i < |t| ensures SameShell(d'[i], t[i]) {
      assert SameShell(d[i], t[i]);
    }
  }

  /** Reconciling a document against the groups of its first `n` segments. A repeated
      group's own block is never touched; with distinct labels each block is adjusted once,
      on its own; and unless a repeated group has entries, each block comes to hold what
      the new configuration grants. */
  lemma {:induction false} ReconcileDoc(d: Doc, t: Doc, was: Features, wants: Features, n: nat) returns (d': Doc)
    requires n <= |t| && AcceptedDoc(t) && Loose(d, t)
    ensures Reconciled(Flatten(d), DocGroups(t[..n]), wants) == Flatten(d')
    ensures Loose(d', t)
    ensures forall i :: 0 <= i < |t| && !IsFirst(t, i) ==> d'[i] == d[i]
    ensures DistinctDoc(t) ==> forall i :: 0 <= i < |t| ==> d'[i] == if i < n then AdjustSeg(d[i], t[i], wants) else d[i]
    ensures TwinsEmptyDoc(t) && Follows(d, t, was) ==>
              forall i :: 0 <= i < |t| ==> SegFollows(d'[i], t[i], if i < n then wants else was)
  {
    hide KindOf, Accepted, OneLine, Step, Adjust, Flatten, Fields, ParseMarker, EntryDomains, Reconciled, DocGroups;
    if n == 0 {
      NothingToReconcile(Flatten(d), t, wants);
      d' := d;
    } else {
      var e := ReconcileDoc(d, t, was, wants, n - 1);
      var k := n - 1;
      ReconciledNext(Flatten(d), t, k, wants);
      assert SameShell(d[k], t[k]) && SameShell(e[k], t[k]);
      if t[k].Plain? {
        d' := e;
      } else {
        var f: nat;
        f, d' := StepOnBlock(e, t, k, wants);
        assert SameShell(e[f], t[f]);
        if TwinsEmptyDoc(t) && Follows(d, t, was) {
          StepFollows(e, t, k, f, was, wants);
        }
      }
    }
  }

  lemma NothingToReconcile(lines: seq<string>, t: Doc, wants: Features)
    ensures Reconciled(lines, DocGroups(t[..0]), wants) == lines
  {
    assert t[..0] == [];
  }

  lemma ReconciledNext(lines: seq<string>, t: Doc, k: nat, wants: Features)
    requires k < |t|
    ensures Reconciled(lines, DocGroups(t[..k + 1]), wants)
         == if t[k].Plain? then Reconciled(lines, DocGroups(t[..k]), wants)
            else Step(Reconciled(lines, DocGroups(t[..k]), wants), t[k].AsGroup(), wants)
  {
    hide Step, Fields, ParseMarker;
    assert t[..k + 1] == t[..k] + [t[k]];
    DocGroupsAppend(t[..k], [t[k]]);
    var groups := DocGroups(t[..k + 1]);
    if t[k].Plain? {
      assert DocGroups([t[k]]) == [];
      assert groups == DocGroups(t[..k]);
    } else {
      assert DocGroups([t[k]]) == [t[k].AsGroup()];
      assert groups[..|groups| - 1] == DocGroups(t[..k]);
    }
  }

  lemma StepFollows(e: Doc, t: Doc, k: nat, f: nat, was: Features, wants: Features)
    requires |e| == |t| && f <= k < |t| && e[f].Block? && Twins(t, f, k) && TwinsEmptyDoc(t) && AcceptedDoc(t)
    requires forall i :: 0 <= i < |t| ==> SegFollows(e[i], t[i], if i < k then wants else was)
    ensures var g := t[k].AsGroup();
            var d' := e[f := e[f].(inside := Adjust(e[f].inside, g, g.WantedBy(wants)))];
            forall i :: 0 <= i < |t| ==> SegFollows(d'[i], t[i], if i <= k then wants else was)
  {
    hide KindOf, OneLine, Adjust, Fields, ParseMarker, EntryDomains, Accepted;
    var g := t[k].AsGroup();
    assert t[k] in t;
    ShapeOf(t[k]);
    assert SegFollows(e[f], t[f], if f < k then wants else was);
    assert SegFollows(e[k], t[k], was);
    AdjustEntries(e[f].inside, g, g.WantedBy(wants));
    AdjustStaysPlain(e[f].inside, g, g.WantedBy(wants));
  }

  /** What a list follows after one reconcile against every group of the template. */
  lemma ReconcileFollows(d: Doc, t: Doc, was: Features, wants: Features) returns (d': Doc)
    requires AcceptedDoc(t) && Follows(d, t, was) && TwinsEmptyDoc(t)
    ensures Reconciled(Flatten(d), DocGroups(t), wants) == Flatten(d') && Follows(d', t, wants)
  {
    hide KindOf, Accepted, OneLine, EntryDomains;
    assert t[..|t|] == t;
    FollowsIsLoose(d, t, was);
    d' := ReconcileDoc(d, t, was, wants, |t|);
  }

  // --- runs ----------------------------------------------------------------------------------------

  /** What happens to a list over time: a re-create under some configuration, which
      reconciles it, or `ptrbox allow`, which appends a domain. */
  datatype Op = Recreate(wants: Features) | AllowDomain(domain: string)

  ghost function Apply(body: string, groups: seq<Group>, op: Op): string {
    match op
    case Recreate(wants) => ReconciledText(body, groups, wants)
    case AllowDomain(domain) => if ValidDomain(domain) then AppendDomain(body, domain) else body
  }

  ghost function Run(body: string, groups: seq<Group>, ops: seq<Op>): string
    decreases |ops|
  {
    if ops == [] then body else Run(Apply(body, groups, ops[0]), groups, ops[1..])
  }

  /** The domains a run appended: those asked for when the list did not hold them. */
  ghost function AddedBy(body: string, groups: seq<Group>, ops: seq<Op>): seq<string>
    decreases |ops|
  {
    if ops == [] then []
    else (if ops[0].AllowDomain? && ValidDomain(ops[0].domain) && ops[0].domain !in AllowEntries(body)
          then [ops[0].domain] else [])
         + AddedBy(Apply(body, groups, ops[0]), groups, ops[1..])
  }

  ghost function LastWants(start: Features, ops: seq<Op>): Features
    decreases |ops|
  {
    if ops == [] then start
    else LastWants(if ops[0].Recreate? then ops[0].wants else start, ops[1..])
  }

  ghost predicate Tracks(body: string, d: Doc, t: Doc, wants: Features, base: Doc, added: seq<string>) {
    && AcceptedDoc(t) && Follows(d, t, wants)
    && body == Unlines(Flatten(d))
    && DocGroups(t) == DocGroups(base)
    && forall v :: DocEntries(t, v) == DocEntries(base, v) + added
  }

  /** strings.TrimRight(body, "\n") and the split after it drop the trailing blank lines,
      which are plain segments without entries. */
  lemma {:induction false} TrimDoc(d: Doc, t: Doc, wants: Features) returns (d': Doc, t': Doc)
    requires AcceptedDoc(t) && Follows(d, t, wants)
    ensures AcceptedDoc(t') && Follows(d', t', wants) && d' != []
    ensures Flatten(d') == BodyLines(Unlines(Flatten(d)))
    ensures d' == t' == [Plain("")] || (|t'| <= |t| && t' == t[..|t'|] && d' == d[..|t'|])
    ensures DocGroups(t') == DocGroups(t)
    ensures forall v :: DocEntries(t', v) == DocEntries(t, v)
    decreases |d|
  {
    hide Accepted, BodyLines, Unlines, Flatten, DocGroups, DocEntries, SegFollows;
    if d == [] {
      d', t' := [Plain("")], [Plain("")];
      BlankDoc(wants);
      assert t == [];
      assert Flatten(d) == [] && DocGroups(t) == [] && forall v :: DocEntries(t, v) == [] by { EmptyDoc(); }
    } else if d[|d| - 1] == Plain("") {
      var n := |d| - 1;
      assert t[n] == Plain("") by { assert SegFollows(d[n], t[n], wants); BlankFollows(t[n], wants); }
      d', t' := TrimDoc(d[..n], t[..n], wants);
      DropBlank(d[..n], t[..n]);
      assert d == d[..n] + [Plain("")] && t == t[..n] + [Plain("")];
    } else {
      d', t' := d, t;
      LastLine(d, t, wants);
      FollowsEntries(d, t, wants);
      BodyLinesOf(Flatten(d));
    }
  }

  lemma BlankFollows(s: Seg, wants: Features)
    requires SegFollows(Plain(""), s, wants)
    ensures s == Plain("")
  {
  }

  lemma EmptyDoc()
    ensures Flatten([]) == [] && DocGroups([]) == [] && forall v :: DocEntries([], v) == []
  {
  }

  lemma BlankDoc(wants: Features)
    ensures var b := [Plain("")];
            && AcceptedDoc(b) && Follows(b, b, wants) && DocGroups(b) == []
            && Flatten(b) == [""] == BodyLines(Unlines([]))
            && forall v :: DocEntries(b, v) == []
  {
    hide KindOf, ParseMarker, DomainOf;
    BlankLineAccepted();
    BlankIsPlain();
    SplitNone("", '\n');
    assert EntryDomains([""]) == [];
    forall v ensures DocEntries([Plain("")], v) == [] {
      assert SegEntries(Plain(""), v) == [];
    }
  }

  lemma DropBlank(d: Doc, t: Doc)
    ensures BodyLines(Unlines(Flatten(d + [Plain("")]))) == BodyLines(Unlines(Flatten(d)))
    ensures DocGroups(t + [Plain("")]) == DocGroups(t)
    ensures forall v :: DocEntries(t + [Plain("")], v) == DocEntries(t, v)
  {
    hide Split, Accepted;
    BlankDoc({});
    FlattenAppend(d, [Plain("")]);
    DocGroupsAppend(t, [Plain("")]);
    UnlinesAppend(Flatten(d), [""]);
    var s := Unlines(Flatten(d));
    assert Unlines([""]) == "\n";
    assert (s + "\n")[..|s|] == s;
    assert DocGroups(t) + [] == DocGroups(t);
    forall v ensures DocEntries(t + [Plain("")], v) == DocEntries(t, v) {
      DocEntriesAppend(t, [Plain("")], v);
      assert DocEntries(t, v) + [] == DocEntries(t, v);
    }
  }

  lemma LastLine(d: Doc, t: Doc, wants: Features)
    requires AcceptedDoc(t) && Follows(d, t, wants) && d != [] && d[|d| - 1] != Plain("")
    ensures Flatten(d) != [] && Flatten(d)[|Flatten(d)| - 1] != ""
  {
    hide KindOf, ParseMarker, Accepted, OneLine, EntryDomains, Flatten;
    var n := |d| - 1;
    assert t[n] in t && SegFollows(d[n], t[n], wants);
    ShapeOf(t[n]);
    BlankIsPlain();
    FlattenAround(d, n);
    assert Flatten(d[n + 1..]) == [] by { EmptyDoc(); }
    assert Flatten(d) == Flatten(d[..n]) + d[n].Lines();
    assert d[n].Lines()[|d[n].Lines()| - 1] != "";
  }

  lemma BlankLineAccepted()
    ensures Accepted(Plain(""))
  {
  }

  lemma BodyLinesOf(lines: seq<string>)
    requires lines != [] && lines[|lines| - 1] != "" && forall l <- lines :: OneLine(l)
    ensures BodyLines(Unlines(lines)) == lines
  {
    UnlinesIsJoin(lines);
    JoinedEnd(lines);
    SplitOfJoin(lines, '\n');
    hide Split, Join, Unlines;
    var s := Join(lines, "\n");
    assert (s + "\n")[..|s|] == s;
    assert TrimNewlines(s + "\n") == TrimNewlines(s) == s;
  }

  lemma TracksRecreate(body: string, d: Doc, t: Doc, wants: Features, base: Doc, added: seq<string>, next: Features)
    returns (d': Doc, t': Doc)
    requires Tracks(body, d, t, wants, base, added) && TwinsEmpty(DocGroups(base))
    ensures Tracks(ReconciledText(body, DocGroups(base), next), d', t', next, base, added)
  {
    hide KindOf, Accepted, ParseMarker, DomainOf, OneLine, EntryDomains, Reconciled, Flatten, DocEntries, Join, Unlines;
    var d1: Doc;
    d1, t' := TrimDoc(d, t, wants);
    TwinsInGroups(t');
    d' := ReconcileFollows(d1, t', wants, next);
    FlattenIsSome(d');
    UnlinesIsJoin(Flatten(d'));
  }

  lemma TracksAppend(body: string, d: Doc, t: Doc, wants: Features, base: Doc, added: seq<string>, domain: string)
    returns (d': Doc, t': Doc)
    requires Tracks(body, d, t, wants, base, added)
    requires ValidDomain(domain) && domain !in AllowEntries(body)
    ensures Tracks(AppendDomain(body, domain), d', t', wants, base, added + [domain])
  {
    hide KindOf, Accepted, ParseMarker, DomainOf, OneLine, ValidDomain, EntryDomains, AllowEntries, AppendDomain,
         Unlines, ScanLines, Flatten, DocEntries, DocGroups, SegFollows;
    FollowsEntries(d, t, wants);
    ScanOfUnlines(Flatten(d));
    AppendDomainAdds(body, domain);
    var s := Plain(domain);
    PlainDoc(domain);
    d', t' := d + [s], t + [s];
    FlattenAppend(d, [s]);
    DocGroupsAppend(t, [s]);
    assert DocGroups(t) + [] == DocGroups(t);
    AcceptedSnoc(t, s);
    assert Follows(d', t', wants) by {
      PlainFollows(s, wants);
    }
    forall v ensures DocEntries(t', v) == DocEntries(base, v) + (added + [domain]) {
      DocEntriesAppend(t, [s], v);
      assert DocEntries(base, v) + added + [domain] == DocEntries(base, v) + (added + [domain]);
    }
  }

  lemma PlainDoc(domain: string)
    requires ValidDomain(domain)
    ensures Flatten([Plain(domain)]) == [domain] && DocGroups([Plain(domain)]) == []
    ensures forall v :: DocEntries([Plain(domain)], v) == [domain]
    ensures ParseMarker(domain).directive == "" && OneLine(domain)
  {
    hide KindOf, ParseMarker, DomainOf, OneLine, ValidDomain;
    ValidDomainIsEntry(domain);
    EntryIsPlain(domain);
    assert EntryDomains([domain]) == [domain];
    forall v ensures DocEntries([Plain(domain)], v) == [domain] {
      assert SegEntries(Plain(domain), v) == [domain];
    }
  }

  lemma PlainFollows(s: Seg, wants: Features)
    requires s.Plain?
    ensures SegFollows(s, s, wants)
  {
  }

  lemma TracksApply(body: string, d: Doc, t: Doc, wants: Features, base: Doc, added: seq<string>, op: Op)
    returns (d': Doc, t': Doc)
    requires Tracks(body, d, t, wants, base, added) && TwinsEmpty(DocGroups(base))
    ensures Tracks(Apply(body, DocGroups(base), op), d', t', LastWants(wants, [op]), base,
                   added + AddedBy(body, DocGroups(base), [op]))
  {
    hide Tracks, ValidDomain, AllowEntries, AppendDomain, ReconciledText, TwinsEmpty, DocGroups;
    assert added + [] == added && [op][1..] == [];
    assert LastWants(wants, [op]) == if op.Recreate? then op.wants else wants;
    assert AddedBy(body, DocGroups(base), [op])
        == if op.AllowDomain? && ValidDomain(op.domain) && op.domain !in AllowEntries(body) then [op.domain] else [];
    if op.Recreate? {
      d', t' := TracksRecreate(body, d, t, wants, base, added, op.wants);
    } else if ValidDomain(op.domain) && op.domain !in AllowEntries(body) {
      d', t' := TracksAppend(body, d, t, wants, base, added, op.domain);
    } else {
      d', t' := d, t;
      SkippedAppend(body, op.domain);
      assert Apply(body, DocGroups(base), op) == body;
    }
  }

  lemma SkippedAppend(body: string, domain: string)
    requires domain in AllowEntries(body)  || !ValidDomain(domain)
    ensures ValidDomain(domain) ==> AppendDomain(body, domain) == body
  {
  }

  lemma FlattenIsSome(d: Doc)
    requires d != []
    ensures Flatten(d) != []
  {
    SegLines(d[0]);
  }

  lemma SegLines(s: Seg)
    ensures s.Lines() != []
  {
  }

  lemma AcceptedSnoc(t: Doc, s: Seg)
    requires AcceptedDoc(t) && s.Plain? && ParseMarker(s.line).directive == "" && OneLine(s.line)
    ensures AcceptedDoc(t + [s])
  {
  }

  lemma TrackedEntries(body: string, d: Doc, t: Doc, wants: Features, base: Doc, added: seq<string>)
    requires Tracks(body, d, t, wants, base, added)
    ensures AllowEntries(body) == DocEntries(base, wants) + added
  {
    hide Accepted, OneLine, EntryDomains, Unlines, ScanLines;
    FollowsEntries(d, t, wants);
    ScanOfUnlines(Flatten(d));
  }

  /** A run is its first operation, then the rest. */
  lemma RunParts(body: string, groups: seq<Group>, wants: Features, ops: seq<Op>)
    ensures ops == [] ==> Run(body, groups, ops) == body && AddedBy(body, groups, ops) == [] && LastWants(wants, ops) == wants
    ensures ops != [] ==> var next := Apply(body, groups, ops[0]);
                          && Run(body, groups, ops) == Run(next, groups, ops[1..])
                          && AddedBy(body, groups, ops) == AddedBy(body, groups, [ops[0]]) + AddedBy(next, groups, ops[1..])
                          && LastWants(wants, ops) == LastWants(LastWants(wants, [ops[0]]), ops[1..])
  {
    hide Apply, ValidDomain, AllowEntries;
    if ops != [] {
      assert [ops[0]][1..] == [];
      var first := AddedBy(body, groups, [ops[0]]);
      assert first + [] == first;
    }
  }

  lemma {:induction false} TracksRun(body: string, d: Doc, t: Doc, wants: Features, base: Doc, added: seq<string>, ops: seq<Op>)
    requires Tracks(body, d, t, wants, base, added) && TwinsEmpty(DocGroups(base))
    ensures AllowEntries(Run(body, DocGroups(base), ops))
         == DocEntries(base, LastWants(wants, ops)) + (added + AddedBy(body, DocGroups(base), ops))
    decreases |ops|
  {
    hide Tracks, AllowEntries, Apply, TwinsEmpty, DocGroups, Run, AddedBy, LastWants;
    RunParts(body, DocGroups(base), wants, ops);
    if ops == [] {
      TrackedEntries(body, d, t, wants, base, added);
      assert added + [] == added;
    } else {
      var d', t' := TracksApply(body, d, t, wants, base, added, ops[0]);
      var body' := Apply(body, DocGroups(base), ops[0]);
      var step := AddedBy(body, DocGroups(base), [ops[0]]);
      TracksRun(body', d', t', LastWants(wants, [ops[0]]), base, added + step, ops[1..]);
      var later := AddedBy(body', DocGroups(base), ops[1..]);
      assert added + step + later == added + (step + later);
    }
  }

  /** A header the seed can be written under: comments and blanks, no entries, no markers. */
  ghost predicate HeaderLine(line: string) {
    OneLine(line) && DomainOf(line) == "" && ParseMarker(line).directive == ""
  }

  /** The groups templateGroups finds; reconcile is never reached for a template it refuses. */
  ghost function GroupsOf(template: seq<string>): seq<Group> {
    var groups := GroupsFrom(template, None);
    if groups.Ok? then groups.value else []
  }

  /** Path independence, for every run from a fresh list. */
  lemma PathIndependence(template: seq<string>, header: seq<string>, start: Features, ops: seq<Op>)
    requires forall l <- template :: OneLine(l)
    requires forall l <- header :: HeaderLine(l)
    requires SeedLines(template, start).Ok?
    requires TwinsEmpty(GroupsOf(template))
    ensures var groups := GroupsOf(template);
            var body := Unlines(header + SeedLines(template, start).value);
            && SeedLines(template, LastWants(start, ops)).Ok?
            && AllowEntries(Run(body, groups, ops))
               == EntryDomains(SeedLines(template, LastWants(start, ops)).value) + AddedBy(body, groups, ops)
  {
    hide KindOf, Accepted, ParseMarker, DomainOf, OneLine, EntryDomains, Run, AddedBy;
    var t := TemplateDoc(template, start);
    GroupsAreDocGroups(template, None);
    AcceptanceIgnoresFeatures(template, start, LastWants(start, ops));
    SeedHoldsWhatIsWanted(template, LastWants(start, ops));
    SeedFollows(t, start);
    var h := HeaderDoc(header);
    FlattenAppend(h, SeedDoc(t, start));
    DocGroupsAppend(h, t);
    var body := Unlines(header + SeedLines(template, start).value);
    forall v ensures DocEntries(h + t, v) == DocEntries(t, v) + [] {
      DocEntriesAppend(h, t, v);
    }
    assert Follows(h + SeedDoc(t, start), h + t, start);
    TracksRun(body, h + SeedDoc(t, start), h + t, start, t, [], ops);
    assert [] + AddedBy(body, DocGroups(t), ops) == AddedBy(body, DocGroups(t), ops);
  }

  lemma {:induction false} HeaderDoc(header: seq<string>) returns (h: Doc)
    requires forall l <- header :: HeaderLine(l)
    ensures AcceptedDoc(h) && Flatten(h) == header && DocGroups(h) == []
    ensures forall v :: DocEntries(h, v) == []
    ensures forall s <- h :: s.Plain?
    ensures forall v :: Follows(h, h, v)
  {
    hide ParseMarker, DomainOf, OneLine;
    h := [];
    if header != [] {
      assert header[0] in header;
      var rest := HeaderDoc(header[1..]);
      h := [Plain(header[0])] + rest;
      assert h[1..] == rest;
      assert EntryDomains([header[0]]) == [];
      assert forall v :: DocEntries(h, v) == SegEntries(h[0], v) + DocEntries(rest, v);
      assert header == [header[0]] + header[1..];
    }
  }

  // --- and only then --------------------------------------------------------------------------------

  ghost predicate ReseedsAlike(template: seq<string>, was: Features, wants: Features)
    requires SeedLines(template, was).Ok? && SeedLines(template, wants).Ok?
  {
    EntryDomains(Reconciled(SeedLines(template, was).value, GroupsOf(template), wants))
    == EntryDomains(SeedLines(template, wants).value)
  }

  /** A list's entries are at least the ungrouped ones and those inside any one block. */
  lemma {:induction false} LooseEntries(d: Doc, t: Doc)
    requires AcceptedDoc(t) && Loose(d, t)
    ensures |EntryDomains(Flatten(d))| >= |DocEntries(t, {})|
  {
    hide KindOf, Accepted, DomainOf, OneLine;
    if t != [] {
      assert t[0] in t && SameShell(d[0], t[0]);
      LooseEntries(d[1..], t[1..]);
      EntriesAppend(d[0].Lines(), Flatten(d[1..]));
    }
  }

  lemma LooseEntriesAround(d: Doc, t: Doc, k: nat)
    requires AcceptedDoc(t) && Loose(d, t) && k < |t| && t[k].Block?
    ensures |EntryDomains(Flatten(d))| >= |DocEntries(t, {})| + |EntryDomains(d[k].inside)|
  {
    hide KindOf, Accepted, DomainOf, OneLine, EntryDomains, DocEntries, Flatten;
    assert SameShell(d[k], t[k]);
    FlattenAround(d, k);
    LooseEntries(d[..k], t[..k]);
    LooseEntries(d[k + 1..], t[k + 1..]);
    var before, b, after := Flatten(d[..k]), d[k], Flatten(d[k + 1..]);
    EntriesAppend(before + b.Lines(), after);
    EntriesAppend(before, b.Lines());
    EntriesAppend([b.open] + b.inside, [b.close]);
    EntriesAppend([b.open], b.inside);
    UnwantedBlockGrantsNothing(t, k);
  }

  lemma UnwantedBlockGrantsNothing(t: Doc, k: nat)
    requires k < |t| && t[k].Block?
    ensures |DocEntries(t, {})| == |DocEntries(t[..k], {})| + |DocEntries(t[k + 1..], {})|
  {
    hide EntryDomains;
    assert t == t[..k] + ([t[k]] + t[k + 1..]);
    DocEntriesAppend(t[..k], [t[k]] + t[k + 1..], {});
    DocEntriesAppend([t[k]], t[k + 1..], {});
    assert DocEntries([t[k]], {}) == [];
  }

  lemma WantsItsOwn(b: Seg)
    requires b.Block? && b.Features() != []
    ensures b.AsGroup().WantedBy(set f <- b.Features())
  {
    hide Fields, ParseMarker;
    assert b.Features()[0] in b.AsGroup().features;
  }

  lemma FollowsIsLoose(d: Doc, t: Doc, wants: Features)
    requires Follows(d, t, wants)
    ensures Loose(d, t)
  {
    hide KindOf, OneLine, EntryDomains;
    forall i | 0 <= i < |t| ensures SameShell(d[i], t[i]) {
      assert SegFollows(d[i], t[i], wants);
    }
  }

  lemma FollowedInside(d: Doc, t: Doc, wants: Features, k: nat)
    requires Follows(d, t, wants) && k < |t| && t[k].Block? && t[k].AsGroup().WantedBy(wants)
    ensures d[k].Block? && EntryDomains(d[k].inside) == t[k].AsGroup().Domains()
  {
    hide KindOf, OneLine, EntryDomains;
    assert SegFollows(d[k], t[k], wants);
  }

  /** A repeated group with entries keeps them when its feature is turned off. */
  lemma TwinsBreak(t: Doc, i: nat, j: nat) returns (was: Features, d': Doc)
    requires AcceptedDoc(t) && i < j < |t| && Twins(t, i, j) && t[j].AsGroup().Domains() != []
    ensures Reconciled(Flatten(SeedDoc(t, was)), DocGroups(t), {}) == Flatten(d')
    ensures |EntryDomains(Flatten(d'))| > |DocEntries(t, {})|
  {
    hide KindOf, Accepted, DomainOf, OneLine, EntryDomains, Flatten, SeedDoc, Reconciled, DocGroups, DocEntries, SegFollows,
         Follows, Loose, Seg.Features, Seg.AsGroup;
    was := set f <- t[j].Features();
    var d := SeedDoc(t, was);
    SeedFollows(t, was);
    assert t[j] in t;
    ShapeOf(t[j]);
    WantsItsOwn(t[j]);
    FollowsIsLoose(d, t, was);
    FollowedInside(d, t, was, j);
    assert t[..|t|] == t;
    d' := ReconcileDoc(d, t, was, {}, |t|);
    assert !IsFirst(t, j);
    LooseEntriesAround(d', t, j);
  }

  lemma GroupPosition(t: Doc, n: nat) returns (k: nat)
    requires n < |DocGroups(t)|
    ensures k < |t| && t[k].Block? && |DocGroups(t[..k])| == n && t[k].AsGroup() == DocGroups(t)[n]
    decreases |t|
  {
    var m := |t| - 1;
    assert t == t[..m] + [t[m]];
    DocGroupsAppend(t[..m], [t[m]]);
    if n < |DocGroups(t[..m])| {
      k := GroupPosition(t[..m], n);
      assert t[..m][..k] == t[..k];
    } else {
      k := m;
    }
  }

  /** Reconciling agrees with seeding afresh for every pair of configurations exactly when
      no group that repeats an earlier label has entries. */
  lemma PathIndependentExactly(template: seq<string>, any: Features)
    requires forall l <- template :: OneLine(l)
    requires SeedLines(template, any).Ok?
    ensures forall v :: SeedLines(template, v).Ok?
    ensures TwinsEmpty(GroupsOf(template))
       <==> forall was, wants :: ReseedsAlike(template, was, wants)
  {
    hide KindOf, Accepted, ParseMarker, DomainOf, OneLine, EntryDomains;
    var t := TemplateDoc(template, any);
    var groups := DocGroups(t);
    GroupsAreDocGroups(template, None);
    forall v ensures SeedLines(template, v) == Ok(Flatten(SeedDoc(t, v))) {
      AcceptanceIgnoresFeatures(template, any, v);
      var u := TemplateDoc(template, v);
    }
    forall was, wants | TwinsEmpty(groups) ensures ReseedsAlike(template, was, wants) {
      TwinsInGroups(t);
      SeedFollows(t, was);
      var d' := ReconcileFollows(SeedDoc(t, was), t, was, wants);
      FollowsEntries(d', t, wants);
      SeedHoldsWhatIsWanted(template, wants);
    }
    if !TwinsEmpty(groups) {
      var i, j :| 0 <= i < j < |groups| && groups[i].Label() == groups[j].Label() && groups[j].Domains() != [];
      var a := GroupPosition(t, i);
      var b := GroupPosition(t, j);
      if b < a {
        GroupBefore(t, b, a);
      }
      var was, d' := TwinsBreak(t, a, b);
      SeedHoldsWhatIsWanted(template, {});
      assert !ReseedsAlike(template, was, {});
    }
  }
}
