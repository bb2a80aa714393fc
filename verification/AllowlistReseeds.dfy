/** Path independence line by line: reconciling a seed for another configuration gives the very
    lines a fresh seed for it would have, for exactly the templates whose groups can be emptied
    down to their note and filled again. */
module AllowlistReseeds {
  import opened Text
  import opened Allowlist
  import opened AllowlistLines
  import opened AllowlistDocs
  import opened AllowlistSeeds
  import opened AllowlistPaths
  import opened AllowlistViews
  import opened AllowlistSettling
  import opened AllowlistTraps
  import opened AllowlistIdempotence
  import opened Domains

  // --- the condition ---------------------------------------------------------------------------

  /** What is left of a group without its entries. */
  function Bare(g: Group): seq<string> {
    Without(g.lines, g.Domains())
  }

  /** A group of entries and nothing else, but possibly its own note. */
  ghost predicate Swaps(g: Group) {
    Bare(g) == [OmittedNote(g.features)] || (Bare(g) == [] && g.lines != [])
  }

  /** The first group of each label is one; a group that repeats a label is its note. */
  ghost predicate Reversible(groups: seq<Group>) {
    forall k :: 0 <= k < |groups| ==>
      if FirstOfLabel(groups, k) then Swaps(groups[k]) else groups[k].lines == [OmittedNote(groups[k].features)]
  }

  /** What a fresh seed has inside the block of a group. */
  ghost function SeedInside(g: Group, wants: Features): seq<string> {
    if g.WantedBy(wants) then g.lines else [OmittedNote(g.features)]
  }

  lemma NoteOnly(features: seq<string>)
    ensures var note := [OmittedNote(features)];
            EntryDomains(note) == [] && NonNotes(note) == [] && IsNote(note[0])
  {
    hide DomainOf, IsNote, OmittedNote;
    WrittenNote(features);
    NoteIsPlain(OmittedNote(features));
    NoEntries([OmittedNote(features)]);
    assert [OmittedNote(features)][1..] == [];
  }

  lemma {:induction false} WithoutItsEntries(lines: seq<string>, domains: seq<string>)
    requires forall d <- EntryDomains(lines) :: d in domains
    ensures EntryDomains(Without(lines, domains)) == []
    ensures EntryDomains(lines) == [] ==> Without(lines, domains) == lines && Dropped(lines, domains) == []
    ensures EntryDomains(lines) != [] ==> Dropped(lines, domains) != []
  {
    hide DomainOf;
    if lines != [] {
      WithoutItsEntries(lines[1..], domains);
      var rest := Without(lines[1..], domains);
      if DomainOf(lines[0]) == "" {
        assert ([lines[0]] + rest)[1..] == rest;
        assert Without(lines, domains) == [lines[0]] + rest;
      } else {
        assert DomainOf(lines[0]) in EntryDomains(lines);
        assert Without(lines, domains) == rest;
      }
    }
  }

  /** A group that swaps goes from what any seed holds to what any other does. */
  lemma SwapsOver(g: Group, was: Features, wants: Features)
    requires Swaps(g)
    ensures Adjust(SeedInside(g, was), g, g.WantedBy(wants)) == SeedInside(g, wants)
  {
    hide DomainOf, IsNote, OmittedNote, EntryDomains, Without, Dropped, NonNotes;
    var note := [OmittedNote(g.features)];
    NoteOnly(g.features);
    WithoutItsEntries(g.lines, g.Domains());
    WithoutItsEntries(note, g.Domains());
    assert [] + g.lines == g.lines && [] + note == note && note + [] == note;
    assert note[0] in note;
  }

  /** A repeated group that is its note leaves the block alone. */
  lemma NoteLeaves(inside: seq<string>, g: Group, h: Group, wants: Features)
    requires h.features == g.features && Swaps(g) && h.lines == [OmittedNote(h.features)]
    requires inside == SeedInside(g, wants)
    ensures Adjust(inside, h, h.WantedBy(wants)) == inside
  {
    hide DomainOf, IsNote, OmittedNote, EntryDomains, Without, Dropped, NonNotes;
    var note := [OmittedNote(g.features)];
    NoteOnly(g.features);
    WithoutItsEntries(g.lines, g.Domains());
    if h.WantedBy(wants) {
      assert [] + note == note;
    } else {
      NothingLeft(inside, h);
    }
  }

  // --- one block over a pass -------------------------------------------------------------------

  /** Before the first group of a label has its turn, nothing happens to the block. */
  lemma {:induction false} UntilItsTurn(lines: seq<string>, groups: seq<Group>, n: nat, wants: Features, k: nat)
    requires n <= k < |groups| && FirstOfLabel(groups, k) && forall g <- groups :: WellFormed(g)
    ensures ViewOf(After(lines, groups, n, wants), groups[k].Label()) == ViewOf(lines, groups[k].Label())
  {
    hide WellFormed, ViewOf, After, NextView, Group.Label;
    if n == 0 {
      NoTurns(lines, groups, wants);
    } else {
      UntilItsTurn(lines, groups, n - 1, wants, k);
      AfterViews(lines, groups, n - 1, wants, groups[k].Label());
    }
  }

  lemma {:induction false} SwappedAfter(lines: seq<string>, groups: seq<Group>, n: nat, was: Features, wants: Features, k: nat)
    requires k < n <= |groups| && FirstOfLabel(groups, k) && Reversible(groups) && forall g <- groups :: WellFormed(g)
    requires ViewOf(lines, groups[k].Label()) == Closed(SeedInside(groups[k], was))
    ensures ViewOf(After(lines, groups, n, wants), groups[k].Label()) == Closed(SeedInside(groups[k], wants))
    decreases n
  {
    hide WellFormed, ViewOf, After, Group.Label, SeedInside, Adjust, Swaps, EntryDomains, Missing;
    var m, tag := n - 1, groups[k].Label();
    AfterViews(lines, groups, m, wants, tag);
    if m == k {
      UntilItsTurn(lines, groups, m, wants, k);
      SwapsOver(groups[k], was, wants);
    } else {
      SwappedAfter(lines, groups, m, was, wants, k);
      if groups[m].Label() == tag {
        assert groups[m] in groups && groups[k] in groups;
        SameFeatures(groups[m], groups[k]);
        assert !FirstOfLabel(groups, m);
        NoteLeaves(SeedInside(groups[k], wants), groups[k], groups[m], wants);
      }
    }
  }

  /** A group that does not swap, emptied: not its note. */
  lemma EmptiedIsNotNote(g: Group)
    requires !Swaps(g)
    ensures Adjust(g.lines, g, false) != [OmittedNote(g.features)] && EntryDomains(Adjust(g.lines, g, false)) == []
  {
    hide DomainOf, IsNote, OmittedNote, EntryDomains, Without, Dropped, NonNotes;
    var note := [OmittedNote(g.features)];
    NoteOnly(g.features);
    WithoutItsEntries(g.lines, g.Domains());
    EntriesAppend(note, Bare(g));
    assert |note + Bare(g)| == 1 + |Bare(g)|;
  }

  lemma {:induction false} EmptyStays(lines: seq<string>, groups: seq<Group>, m: nat, n: nat, wants: Features, k: nat)
    requires m <= n <= |groups| && k < |groups| && (forall g <- groups :: WellFormed(g)) && !groups[k].WantedBy(wants)
    requires var v := ViewOf(After(lines, groups, m, wants), groups[k].Label()); v.Closed? && EntryDomains(v.inside) == []
    ensures ViewOf(After(lines, groups, n, wants), groups[k].Label()) == ViewOf(After(lines, groups, m, wants), groups[k].Label())
    decreases n
  {
    hide WellFormed, ViewOf, After, Adjust, EntryDomains, Missing, Group.Label;
    if m < n {
      EmptyStays(lines, groups, m, n - 1, wants, k);
      AfterViews(lines, groups, n - 1, wants, groups[k].Label());
      if groups[n - 1].Label() == groups[k].Label() {
        assert groups[n - 1] in groups && groups[k] in groups;
        SameFeatures(groups[n - 1], groups[k]);
        NothingLeft(ViewOf(After(lines, groups, m, wants), groups[k].Label()).inside, groups[n - 1]);
      }
    }
  }

  // --- documents -------------------------------------------------------------------------------

  lemma Same<T>(a: seq<T>, x: seq<T>, b: seq<T>, y: seq<T>)
    requires a + x == b + y && |a| == |b|
    ensures a == b && x == y
  {
    assert (a + x)[..|a|] == a && (b + y)[..|b|] == b && (a + x)[|a|..] == x && (b + y)[|b|..] == y;
  }

  lemma SameBlocks(a: Seg, b: Seg, t: Seg, x: seq<string>, y: seq<string>)
    requires Accepted(t) && SameShell(a, t) && SameShell(b, t) && a.Lines() + x == b.Lines() + y
    ensures a == b && x == y
  {
    hide KindOf, Accepted, OneLine;
    ShapeOf(t);
    if t.Block? {
      var s, u := a.Lines() + x, b.Lines() + y;
      assert s[|a.inside| + 1] == a.close && u[|b.inside| + 1] == b.close;
      assert forall i :: 0 <= i < |a.inside| ==> s[i + 1] == a.inside[i] && KindOf(a.inside[i]) == Other;
      assert forall i :: 0 <= i < |b.inside| ==> u[i + 1] == b.inside[i] && KindOf(b.inside[i]) == Other;
      assert KindOf(s[|a.inside| + 1]) == Close && KindOf(u[|b.inside| + 1]) == Close;
      assert |a.inside| == |b.inside|;
    }
    Same(a.Lines(), x, b.Lines(), y);
    if t.Block? {
      assert a.inside == a.Lines()[1..|a.inside| + 1] && b.inside == b.Lines()[1..|b.inside| + 1];
    }
  }

  /** Two documents in the shells of one template are the same lines only if they are the same. */
  lemma {:induction false} SameDocs(a: Doc, b: Doc, t: Doc)
    requires AcceptedDoc(t) && Loose(a, t) && Loose(b, t) && Flatten(a) == Flatten(b)
    ensures a == b
  {
    hide SameShell, Accepted, Seg.Lines;
    if t != [] {
      assert t[0] in t && SameShell(a[0], t[0]) && SameShell(b[0], t[0]);
      forall i | 0 <= i < |t| - 1 ensures SameShell(a[1..][i], t[1..][i]) && SameShell(b[1..][i], t[1..][i]) {
        assert SameShell(a[i + 1], t[i + 1]) && SameShell(b[i + 1], t[i + 1]);
      }
      SameBlocks(a[0], b[0], t[0], Flatten(a[1..]), Flatten(b[1..]));
      SameDocs(a[1..], b[1..], t[1..]);
      assert a == [a[0]] + a[1..] && b == [b[0]] + b[1..];
    }
  }

  lemma SeedSegIs(b: Seg, wants: Features)
    ensures b.Plain? ==> SeedSeg(b, wants) == b
    ensures b.Block? ==> SeedSeg(b, wants) == b.(inside := SeedInside(b.AsGroup(), wants))
  {
    hide OmittedNote, Fields, ParseMarker;
  }

  /** One block of a seed, reconciled for another configuration. */
  lemma BlockReseeds(t: Doc, k: nat, was: Features, wants: Features, d': Doc)
    requires AcceptedDoc(t) && Loose(d', t) && k < |t| && Reversible(DocGroups(t))
    requires Reconciled(Flatten(SeedDoc(t, was)), DocGroups(t), wants) == Flatten(d')
    requires |SeedDoc(t, was)| == |t| && (!IsFirst(t, k) ==> d'[k] == SeedDoc(t, was)[k])
    ensures |SeedDoc(t, wants)| == |t| && d'[k] == SeedDoc(t, wants)[k]
  {
    hide KindOf, Accepted, ParseMarker, Fields, OneLine, EntryDomains, FindGroup, Adjust, Reconciled, ViewOf, Group.Label,
         Flatten, Group.WantedBy, IsFirst, FirstOfLabel, OmittedNote, SeedSeg, Seg.AsGroup;
    SeedSegAt(t, k, was);
    SeedSegAt(t, k, wants);
    SeedSegIs(t[k], was);
    SeedSegIs(t[k], wants);
    assert SameShell(d'[k], t[k]);
    if t[k].Block? {
      FirstOfBoth(t, k);
      var groups, n := DocGroups(t), |DocGroups(t[..k])|;
      if IsFirst(t, k) {
        var d := SeedDoc(t, was);
        SeedIsLoose(t, was);
        TemplateGroupsWellFormed(t);
        FirstView(d, t, k);
        FirstView(d', t, k);
        assert groups[..|groups|] == groups;
        SwappedAfter(Flatten(d), groups, |groups|, was, wants, n);
      }
    }
  }

  lemma Reseeds(t: Doc, was: Features, wants: Features)
    requires AcceptedDoc(t) && Reversible(DocGroups(t))
    ensures Reconciled(Flatten(SeedDoc(t, was)), DocGroups(t), wants) == Flatten(SeedDoc(t, wants))
  {
    hide Reconciled, Flatten, Loose, Reversible, IsFirst, Accepted, SegFollows;
    SeedIsLoose(t, was);
    SeedDocPrefix(t, |t|, was);
    SeedDocPrefix(t, |t|, wants);
    assert t[..|t|] == t;
    var d' := ReconcileDoc(SeedDoc(t, was), t, was, wants, |t|);
    LooseSize(d', t);
    forall k | 0 <= k < |t| ensures d'[k] == SeedDoc(t, wants)[k] {
      NotFirst(t, k);
      BlockReseeds(t, k, was, wants, d');
    }
    assert d' == SeedDoc(t, wants);
  }

  lemma LooseSize(d: Doc, t: Doc)
    requires Loose(d, t)
    ensures |d| == |t|
  {
  }

  lemma NotFirst(t: Doc, k: nat)
    requires k < |t|
    ensures t[k].Plain? ==> IsFirst(t, k)
  {
  }

  /** A template that is not reversible, and the two configurations that show it. */
  lemma NotReseeded(t: Doc, n: nat) returns (was: Features, wants: Features)
    requires AcceptedDoc(t) && n < |DocGroups(t)|
    requires var g := DocGroups(t)[n];
             if FirstOfLabel(DocGroups(t), n) then !Swaps(g) else g.lines != [OmittedNote(g.features)]
    ensures Reconciled(Flatten(SeedDoc(t, was)), DocGroups(t), wants) != Flatten(SeedDoc(t, wants))
  {
    hide KindOf, Accepted, ParseMarker, Fields, OneLine, EntryDomains, FindGroup, Adjust, Reconciled, ViewOf, Group.Label, Swaps,
         Flatten, IsFirst, FirstOfLabel, OmittedNote, SeedSeg, Seg.AsGroup, Group.WantedBy, SeedInside, After, Loose, SegFollows;
    var groups := DocGroups(t);
    var k := GroupPosition(t, n);
    var g := groups[n];
    FirstOfBoth(t, k);
    TemplateGroupsWellFormed(t);
    assert g in groups;
    WantsSomething(g);
    was, wants := if IsFirst(t, k) then Own(g) else {}, if IsFirst(t, k) then {} else Own(g);
    var d, e := SeedDoc(t, was), SeedDoc(t, wants);
    SeedIsLoose(t, was);
    SeedIsLoose(t, wants);
    SeedSegAt(t, k, was);
    SeedSegAt(t, k, wants);
    SeedSegIs(t[k], was);
    SeedSegIs(t[k], wants);
    assert t[..|t|] == t;
    var d' := ReconcileDoc(d, t, was, wants, |t|);
    LooseSize(d', t);
    if Flatten(d') == Flatten(e) {
      SameDocs(d', e, t);
      InsideOf(g, was, wants);
      if IsFirst(t, k) {
        FirstView(d, t, k);
        FirstView(d', t, k);
        assert groups[..|groups|] == groups;
        UntilItsTurn(Flatten(d), groups, n, wants, n);
        AfterViews(Flatten(d), groups, n, wants, g.Label());
        EmptiedIsNotNote(g);
        EmptyStays(Flatten(d), groups, n + 1, |groups|, wants, n);
        AfterAll(Flatten(d), groups, wants);
        assert false;
      }
      assert false;
    }
  }

  lemma AfterAll(lines: seq<string>, groups: seq<Group>, wants: Features)
    ensures After(lines, groups, |groups|, wants) == Reconciled(lines, groups, wants)
  {
    assert groups[..|groups|] == groups;
  }

  ghost function Own(g: Group): Features {
    set f <- g.features
  }

  lemma WantsSomething(g: Group)
    requires WellFormed(g)
    ensures g.WantedBy(Own(g)) && !g.WantedBy({})
  {
    assert g.features[0] in g.features;
  }

  lemma InsideOf(g: Group, was: Features, wants: Features)
    ensures SeedInside(g, was) == if g.WantedBy(was) then g.lines else [OmittedNote(g.features)]
    ensures SeedInside(g, wants) == if g.WantedBy(wants) then g.lines else [OmittedNote(g.features)]
  {
  }

  // --- templates -------------------------------------------------------------------------------

  ghost predicate ReseedsLines(template: seq<string>, was: Features, wants: Features)
    requires SeedLines(template, was).Ok? && SeedLines(template, wants).Ok?
  {
    Reconciled(SeedLines(template, was).value, GroupsOf(template), wants) == SeedLines(template, wants).value
  }

  /** Reconciling a seed for another configuration gives the lines of a fresh seed for it, for
      every two configurations, exactly when the template is reversible. */
  lemma ReseedsExactly(template: seq<string>, any: Features)
    requires forall l <- template :: OneLine(l)
    requires SeedLines(template, any).Ok?
    ensures forall v :: SeedLines(template, v).Ok?
    ensures Reversible(GroupsOf(template)) <==> forall was, wants :: ReseedsLines(template, was, wants)
  {
    hide Accepted, OneLine, Reconciled, Flatten, SeedLines, GroupsFrom, DocFrom, Swaps, FirstOfLabel, OmittedNote;
    var t := TemplateDoc(template, any);
    var groups := DocGroups(t);
    GroupsAreDocGroups(template, None);
    forall v ensures SeedLines(template, v) == Ok(Flatten(SeedDoc(t, v))) {
      AcceptanceIgnoresFeatures(template, any, v);
      var u := TemplateDoc(template, v);
    }
    forall was, wants | Reversible(groups) ensures ReseedsLines(template, was, wants) {
      Reseeds(t, was, wants);
    }
    if !Reversible(groups) {
      var n :| 0 <= n < |groups| && !(if FirstOfLabel(groups, n) then Swaps(groups[n]) else groups[n].lines == [OmittedNote(groups[n].features)]);
      var was, wants := NotReseeded(t, n);
      assert !ReseedsLines(template, was, wants);
    }
  }

  // --- runs ------------------------------------------------------------------------------------

  /** The document a reconcile leaves of a text: its final blank lines go. */
  ghost function Trimmed(t: Doc): Doc {
    if t == [] then [Plain("")] else if t[|t| - 1] == Plain("") then Trimmed(t[..|t| - 1]) else t
  }

  ghost function Appendix(domains: seq<string>): Doc {
    if domains == [] then [] else Appendix(domains[..|domains| - 1]) + [Plain(domains[|domains| - 1])]
  }

  lemma TrimmedStep(t: Doc)
    ensures Trimmed(t) == if t == [] then [Plain("")] else if t[|t| - 1] == Plain("") then Trimmed(t[..|t| - 1]) else t
  {
  }

  lemma TrimmedBlank()
    ensures Trimmed([Plain("")]) == [Plain("")]
  {
    assert [Plain("")][..0] == [];
  }

  lemma {:induction false} TrimmedDoc(t: Doc, wants: Features)
    requires AcceptedDoc(t)
    ensures AcceptedDoc(Trimmed(t)) && DocGroups(Trimmed(t)) == DocGroups(t) && Trimmed(Trimmed(t)) == Trimmed(t)
    ensures Flatten(SeedDoc(Trimmed(t), wants)) == BodyLines(Unlines(Flatten(SeedDoc(t, wants)))) != []
  {
    hide Accepted, BodyLines, Unlines, Flatten, DocGroups, SegFollows, SeedSeg, Trimmed;
    TrimmedStep(t);
    if t == [] {
      BlankDoc(wants);
      EmptyDoc();
      BlankSeed(wants);
      TrimmedBlank();
      assert SeedDoc(t, wants) == [];
    } else if t[|t| - 1] == Plain("") {
      var n := |t| - 1;
      TrimmedDoc(t[..n], wants);
      assert t == t[..n] + [Plain("")];
      SeedDocPrefix(t, n, wants);
      SeedSegAt(t, n, wants);
      SeedSegIs(t[n], wants);
      assert SeedDoc(t, wants) == SeedDoc(t[..n], wants) + [Plain("")];
      DropBlank(SeedDoc(t[..n], wants), t[..n]);
    } else {
      var n := |t| - 1;
      SeedFollows(t, wants);
      SeedDocPrefix(t, n, wants);
      SeedSegAt(t, n, wants);
      SeedSegIs(t[n], wants);
      LastLine(SeedDoc(t, wants), t, wants);
      FollowsEntries(SeedDoc(t, wants), t, wants);
      BodyLinesOf(Flatten(SeedDoc(t, wants)));
    }
  }

  lemma {:induction false} AppendixLines(t: Doc, domains: seq<string>, wants: Features)
    requires AcceptedDoc(t) && forall d <- domains :: ValidDomain(d)
    ensures AcceptedDoc(t + Appendix(domains)) && DocGroups(t + Appendix(domains)) == DocGroups(t)
    ensures Flatten(SeedDoc(t + Appendix(domains), wants)) == Flatten(SeedDoc(t, wants)) + domains
    ensures Trimmed(t + Appendix(domains)) == if domains == [] then Trimmed(t) else t + Appendix(domains)
  {
    hide Flatten, DocGroups, SeedDoc, ValidDomain, AcceptedDoc, Trimmed;
    if domains == [] {
      assert t + Appendix(domains) == t;
      assert Flatten(SeedDoc(t, wants)) + [] == Flatten(SeedDoc(t, wants));
    } else {
      var n := |domains| - 1;
      var front := t + Appendix(domains[..n]);
      assert domains[n] in domains && forall d <- domains[..n] :: d in domains;
      AppendixLines(t, domains[..n], wants);
      assert t + Appendix(domains) == front + [Plain(domains[n])];
      OneMore(front, domains[n], wants);
      AndOneMore(Flatten(SeedDoc(t, wants)), domains);
    }
  }

  lemma AndOneMore(lines: seq<string>, domains: seq<string>)
    requires domains != []
    ensures lines + domains[..|domains| - 1] + [domains[|domains| - 1]] == lines + domains
  {
    assert domains == domains[..|domains| - 1] + [domains[|domains| - 1]];
  }

  lemma OneMore(t: Doc, domain: string, wants: Features)
    requires AcceptedDoc(t) && ValidDomain(domain)
    ensures var more := t + [Plain(domain)];
            && AcceptedDoc(more) && DocGroups(more) == DocGroups(t) && Trimmed(more) == more
            && Flatten(SeedDoc(more, wants)) == Flatten(SeedDoc(t, wants)) + [domain]
  {
    hide Flatten, DocGroups, SeedDoc, ValidDomain, Accepted, SeedSeg;
    var s := Plain(domain);
    var more := t + [s];
    PlainDoc(domain);
    AcceptedSnoc(t, s);
    DocGroupsAppend(t, [s]);
    assert DocGroups(t) + [] == DocGroups(t);
    SeedDocPrefix(more, |t|, wants);
    SeedSegAt(more, |t|, wants);
    SeedSegIs(s, wants);
    assert more[..|t|] == t;
    assert SeedDoc(more, wants) == SeedDoc(t, wants) + [s];
    FlattenAppend(SeedDoc(t, wants), [s]);
    NotBlank(domain);
  }

  lemma NotBlank(domain: string)
    requires ValidDomain(domain)
    ensures domain != ""
  {
  }

  /** The list is the seed of `t` for its configuration, then the domains appended since. */
  ghost predicate Retraces(body: string, t: Doc, wants: Features, added: seq<string>) {
    && AcceptedDoc(t) && (forall d <- added :: ValidDomain(d))
    && body == Unlines(Flatten(SeedDoc(t, wants)) + added)
  }

  lemma RetracesRecreate(body: string, t: Doc, wants: Features, added: seq<string>, next: Features)
    requires Retraces(body, t, wants, added) && Reversible(DocGroups(t))
    ensures var t' := if added == [] then Trimmed(t) else t;
            Retraces(ReconciledText(body, DocGroups(t), next), t', next, added) && DocGroups(t') == DocGroups(t)
  {
    hide Accepted, Reconciled, Flatten, Join, Unlines, BodyLines, ValidDomain, DocGroups, Reversible, SeedDoc, Trimmed;
    var t' := if added == [] then Trimmed(t) else t;
    var whole := t + Appendix(added);
    AppendixLines(t, added, wants);
    TrimmedDoc(t, wants);
    TrimmedDoc(whole, wants);
    AppendixLines(t', added, next);
    AppendixLines(t', added, wants);
    assert Appendix([]) == [] && t' + [] == t' && t + [] == t;
    assert Trimmed(whole) == t' + Appendix(added);
    Reseeds(Trimmed(whole), wants, next);
    TrimmedDoc(whole, next);
    UnlinesIsJoin(Flatten(SeedDoc(Trimmed(whole), next)));
  }

  lemma RetracesAppend(body: string, t: Doc, wants: Features, added: seq<string>, domain: string)
    requires Retraces(body, t, wants, added) && ValidDomain(domain)
    ensures Retraces(AppendDomain(body, domain), t, wants,
                     added + if domain in AllowEntries(body) then [] else [domain])
  {
    hide Accepted, Flatten, Unlines, ValidDomain, SeedDoc, AllowEntries, AppendDomain, DocGroups;
    var lines := Flatten(SeedDoc(t, wants)) + added;
    assert added + [] == added;
    if domain in AllowEntries(body) {
      SkippedAppend(body, domain);
    } else {
      AppendixLines(t, added, wants);
      SeedFollows(t + Appendix(added), wants);
      FollowsEntries(SeedDoc(t + Appendix(added), wants), t + Appendix(added), wants);
      AppendDomainAdds(body, domain);
      AppendsLine(lines, domain);
      assert Flatten(SeedDoc(t, wants)) + (added + [domain]) == lines + [domain];
    }
  }

  lemma AppendsLine(lines: seq<string>, domain: string)
    requires domain !in AllowEntries(Unlines(lines))
    ensures AppendDomain(Unlines(lines), domain) == Unlines(lines + [domain])
  {
    hide AllowEntries;
    UnlinesEnd(lines);
    UnlinesAppend(lines, [domain]);
    assert Unlines([domain]) == domain + "\n";
  }

  lemma {:induction false} RetracesRun(body: string, t: Doc, wants: Features, added: seq<string>, ops: seq<Op>)
    returns (t': Doc)
    requires Retraces(body, t, wants, added) && Reversible(DocGroups(t))
    ensures t' == t || t' == Trimmed(t)
    ensures Retraces(Run(body, DocGroups(t), ops), t', LastWants(wants, ops), added + AddedBy(body, DocGroups(t), ops))
    decreases |ops|
  {
    hide Retraces, Apply, Run, AddedBy, LastWants, DocGroups, Reversible, ValidDomain, AllowEntries, AppendDomain, ReconciledText, Trimmed;
    RunParts(body, DocGroups(t), wants, ops);
    t' := t;
    if ops == [] {
      assert added + [] == added;
    } else {
      var groups := DocGroups(t);
      var next, more := Apply(body, groups, ops[0]), AddedBy(body, groups, [ops[0]]);
      var u := t;
      if ops[0].Recreate? {
        RetracesRecreate(body, t, wants, added, ops[0].wants);
        u := if added == [] then Trimmed(t) else t;
        TrimmedOnce(t, body, wants, added);
      } else if ValidDomain(ops[0].domain) {
        RetracesAppend(body, t, wants, added, ops[0].domain);
      }
      OneOp(body, groups, wants, ops[0]);
      assert added + [] == added;
      t' := RetracesRun(next, u, LastWants(wants, [ops[0]]), added + more, ops[1..]);
      var later := AddedBy(next, groups, ops[1..]);
      assert added + more + later == added + (more + later);
    }
  }

  lemma TrimmedOnce(t: Doc, body: string, wants: Features, added: seq<string>)
    requires Retraces(body, t, wants, added)
    ensures Trimmed(Trimmed(t)) == Trimmed(t)
  {
    hide Accepted, Flatten, SeedDoc, Unlines, DocGroups, BodyLines;
    TrimmedDoc(t, wants);
  }

  lemma OneOp(body: string, groups: seq<Group>, wants: Features, op: Op)
    ensures LastWants(wants, [op]) == if op.Recreate? then op.wants else wants
    ensures AddedBy(body, groups, [op])
         == if op.AllowDomain? && ValidDomain(op.domain) && op.domain !in AllowEntries(body) then [op.domain] else []
    ensures Apply(body, groups, op)
         == if op.Recreate? then ReconciledText(body, groups, op.wants)
            else if ValidDomain(op.domain) then AppendDomain(body, op.domain) else body
  {
    hide ReconciledText, AppendDomain, ValidDomain, AllowEntries;
    assert [op][1..] == [];
  }

  /** Over every run from a fresh list: the text is the header, the lines of a fresh seed for
      the last configuration and the domains appended since, whatever came between; only
      blank lines that ended the template may have been dropped. */
  lemma RunsRetrace(template: seq<string>, header: seq<string>, start: Features, ops: seq<Op>)
    requires forall l <- template :: OneLine(l)
    requires forall l <- header :: HeaderLine(l)
    requires SeedLines(template, start).Ok? && Reversible(GroupsOf(template))
    ensures var groups := GroupsOf(template);
            var body := Unlines(header + SeedLines(template, start).value);
            && SeedLines(template, LastWants(start, ops)).Ok?
            && var anew := header + SeedLines(template, LastWants(start, ops)).value;
               var now, added := Run(body, groups, ops), AddedBy(body, groups, ops);
               now == Unlines(anew + added) || now == Unlines(BodyLines(Unlines(anew)) + added)
  {
    hide Accepted, ParseMarker, DomainOf, OneLine, Reconciled, SeedDoc, SeedLines, GroupsFrom, DocFrom, Flatten, DocGroups, Unlines,
         HeaderLine, Reversible, Run, AddedBy, LastWants, BodyLines, Trimmed, SegFollows;
    var last := LastWants(start, ops);
    AcceptanceIgnoresFeatures(template, start, last);
    var t := TemplateDoc(template, start);
    var u := TemplateDoc(template, last);
    GroupsAreDocGroups(template, None);
    var h := HeaderDoc(header);
    DocGroupsAppend(h, t);
    assert [] + DocGroups(t) == DocGroups(t);
    SeedUnderHeader(h, t, start);
    SeedUnderHeader(h, t, last);
    FlattenAppend(h, SeedDoc(t, start));
    FlattenAppend(h, SeedDoc(t, last));
    var body := Unlines(header + SeedLines(template, start).value);
    var seed := header + SeedLines(template, start).value;
    assert seed + [] == seed;
    assert Retraces(body, h + t, start, []);
    var t' := RetracesRun(body, h + t, start, [], ops);
    TrimmedDoc(h + t, last);
    var added := AddedBy(body, GroupsOf(template), ops);
    assert [] + added == added;
  }
}
