/** When reconciling a second time changes nothing: on every body, whatever a person has
    made of it, and on a fresh seed. */
module AllowlistIdempotence {
  import opened Text
  import opened Allowlist
  import opened AllowlistLines
  import opened AllowlistDocs
  import opened AllowlistSeeds
  import opened AllowlistPaths
  import opened AllowlistViews
  import opened AllowlistSettling
  import opened AllowlistTraps

  /** Reconciling is idempotent for every list and configuration exactly when a label whose
      groups have no entries holds only notes, and a domain shared by two labels is given up
      before the last turn that asks for it whenever one can be wanted without the other. */
  lemma IdempotentExactly(groups: seq<Group>)
    requires forall g <- groups :: WellFormed(g)
    ensures Settles(groups) <==> forall lines, wants :: SecondPassChangesNothing(lines, groups, wants)
  {
    hide WellFormed, Reconciled, Contested, GivenUpFirst, Barren;
    forall lines, wants | Settles(groups) ensures SecondPassChangesNothing(lines, groups, wants) {
      PassTwice(lines, groups, wants);
    }
    if !Settles(groups) {
      if h :| h in groups && Barren(groups, h.Label()) && !OnlyNotes(groups, h.Label()) {
        var g :| g in groups && g.Label() == h.Label() && NonNotes(g.lines) != [];
        var k :| 0 <= k < |groups| && groups[k] == g;
        CommentsRepeat(groups, k);
      } else {
        var i, j, d :| 0 <= i < |groups| && 0 <= j < |groups| && Contested(groups[i], groups[j], d)
                       && !GivenUpFirst(groups, groups[i].Label(), groups[j].Label(), d);
        SharedDomainReturns(groups, i, j, d);
      }
    }
  }

  // --- a fresh seed ------------------------------------------------------------------------------

  /** One pass over a template with distinct labels, seen through one group's view. */
  lemma {:induction false} PassViews(lines: seq<string>, groups: seq<Group>, k: nat, wants: Features)
    requires k < |groups| && DistinctLabels(groups) && forall g <- groups :: WellFormed(g)
    requires ViewOf(lines, groups[k].Label()).Closed?
    ensures ViewOf(Reconciled(lines, groups, wants), groups[k].Label())
         == Closed(Adjust(ViewOf(lines, groups[k].Label()).inside, groups[k], groups[k].WantedBy(wants)))
    decreases |groups|
  {
    hide Step, WellFormed, Adjust, ViewOf;
    var n := |groups| - 1;
    var before := groups[..n];
    var mid := Reconciled(lines, before, wants);
    assert groups[n] in groups;
    assert forall g <- before :: g in groups;
    StepViews(mid, groups[n], wants, groups[k].Label());
    if k < n {
      assert before[k] == groups[k];
      PassViews(lines, before, k, wants);
    } else {
      ViewUntouched(lines, before, groups[k].Label(), wants);
    }
  }

  lemma TemplateGroupsWellFormed(t: Doc)
    requires AcceptedDoc(t)
    ensures forall g <- DocGroups(t) :: WellFormed(g) && forall l <- g.lines :: OneLine(l)
  {
    hide KindOf, Accepted, ParseMarker, Fields, OneLine;
    forall g | g in DocGroups(t) ensures WellFormed(g) && forall l <- g.lines :: OneLine(l) {
      var n :| 0 <= n < |DocGroups(t)| && DocGroups(t)[n] == g;
      var k := GroupPosition(t, n);
      assert t[k] in t;
      ShapeOf(t[k]);
    }
  }

  lemma SeedIsLoose(t: Doc, wants: Features)
    requires AcceptedDoc(t)
    ensures Loose(SeedDoc(t, wants), t)
  {
    hide KindOf, Accepted, OneLine, EntryDomains;
    SeedFollows(t, wants);
    FollowsIsLoose(SeedDoc(t, wants), t, wants);
  }

  /** What findGroup shows of the first block of a label. */
  lemma FirstView(d: Doc, t: Doc, k: nat)
    requires AcceptedDoc(t) && Loose(d, t) && k < |t| && t[k].Block? && IsFirst(t, k)
    ensures d[k].Block? && ViewOf(Flatten(d), t[k].AsGroup().Label()) == Closed(d[k].inside)
  {
    hide KindOf, Accepted, ParseMarker, Fields, OneLine, FindGroup;
    LooseShaped(d, t);
    assert SameShell(d[k], t[k]);
    forall i | 0 <= i <= k ensures HasTag(d[i], t[k].AsGroup().Label()) == (i == k) {
      TagsAgree(d, t, i, k);
    }
    ViewInDoc(d, k, t[k].AsGroup().Label());
  }

  lemma {:induction false} SeedSegAt(t: Doc, k: nat, wants: Features)
    requires k < |t|
    ensures |SeedDoc(t, wants)| == |t| && SeedDoc(t, wants)[k] == SeedSeg(t[k], wants)
  {
    hide SeedSeg;
    if k > 0 {
      SeedSegAt(t[1..], k - 1, wants);
    } else if |t| > 1 {
      SeedSegAt(t[1..], 0, wants);
    }
  }

  /** The first block of a label is the first group of it. */
  lemma FirstOfBoth(t: Doc, k: nat)
    requires k < |t| && t[k].Block?
    ensures var n := |DocGroups(t[..k])|;
            n < |DocGroups(t)| && DocGroups(t)[n] == t[k].AsGroup() && (IsFirst(t, k) <==> FirstOfLabel(DocGroups(t), n))
  {
    hide Seg.AsGroup, Group.Label, DocGroups;
    var groups, n := DocGroups(t), |DocGroups(t[..k])|;
    GroupAt(t, k);
    forall i | 0 <= i < k && Twins(t, i, k) ensures !FirstOfLabel(groups, n) {
      GroupAt(t, i);
      GroupBefore(t, i, k);
    }
    forall m | 0 <= m < n && groups[m].Label() == groups[n].Label() ensures !IsFirst(t, k) {
      var i := GroupPosition(t, m);
      if i > k {
        GroupBefore(t, k, i);
      }
      assert Twins(t, i, k);
    }
  }

  /** The lines of the last group of a label. */
  ghost function LastLines(groups: seq<Group>, tag: string): seq<string> {
    if groups == [] then []
    else
      var n := |groups| - 1;
      if groups[n].Label() == tag then groups[n].lines else LastLines(groups[..n], tag)
  }

  /** The block of a wanted label whose groups hold only notes ends with the last one's. */
  lemma {:induction false} LastNotesWin(lines: seq<string>, groups: seq<Group>, n: nat, wants: Features, k: nat)
    requires n <= |groups| && k < |groups| && forall g <- groups :: WellFormed(g)
    requires groups[k].WantedBy(wants) && OnlyNotes(groups, groups[k].Label())
    requires ViewOf(lines, groups[k].Label()) == Closed(groups[k].lines)
    ensures ViewOf(After(lines, groups, n, wants), groups[k].Label())
         == Closed(if exists i :: 0 <= i < n && groups[i].Label() == groups[k].Label() then LastLines(groups[..n], groups[k].Label())
                   else groups[k].lines)
    ensures (exists i :: 0 <= i < n && groups[i].Label() == groups[k].Label()) ==>
              exists i :: 0 <= i < n && groups[i].Label() == groups[k].Label() && LastLines(groups[..n], groups[k].Label()) == groups[i].lines
  {
    hide WellFormed, ViewOf, EntryDomains, Adjust, Missing, NonNotes, Step, Group.Label;
    var tag := groups[k].Label();
    assert groups[k] in groups;
    if n == 0 {
      NoTurns(lines, groups, wants);
    } else {
      var m := n - 1;
      LastNotesWin(lines, groups, m, wants, k);
      AfterViews(lines, groups, m, wants, tag);
      assert groups[..n][..m] == groups[..m];
      if groups[m].Label() == tag {
        assert groups[m] in groups;
        SameFeatures(groups[m], groups[k]);
        var inside := ViewOf(After(lines, groups, m, wants), tag).inside;
        assert NonNotes(inside) == [] by {
          if i :| 0 <= i < m && groups[i].Label() == tag && LastLines(groups[..m], tag) == groups[i].lines {
            assert groups[i] in groups;
          }
        }
        NoEntriesInNotes(inside);
        NotesReplaced(inside, groups[m]);
        assert [] + groups[m].lines == groups[m].lines;
      }
    }
  }

  /** A block with entries stays as it is for a wanted label, one without for an unwanted. */
  lemma {:induction false} BlockStays(lines: seq<string>, groups: seq<Group>, n: nat, wants: Features, k: nat)
    requires n <= |groups| && k < |groups| && forall g <- groups :: WellFormed(g)
    requires var v := ViewOf(lines, groups[k].Label()); v.Closed? && (EntryDomains(v.inside) != [] <==> groups[k].WantedBy(wants))
    ensures ViewOf(After(lines, groups, n, wants), groups[k].Label()) == ViewOf(lines, groups[k].Label())
  {
    hide WellFormed, ViewOf, EntryDomains, Adjust, Missing, Step;
    if n == 0 {
      NoTurns(lines, groups, wants);
    } else {
      var m, tag := n - 1, groups[k].Label();
      BlockStays(lines, groups, m, wants, k);
      AfterViews(lines, groups, m, wants, tag);
      if groups[m].Label() == tag {
        assert groups[m] in groups && groups[k] in groups;
        SameFeatures(groups[m], groups[k]);
        var inside := ViewOf(lines, tag).inside;
        AdjustFills(inside, groups[m]);
        if EntryDomains(inside) == [] {
          NothingLeft(inside, groups[m]);
        }
      }
    }
  }

  /** What a fresh seed needs to come out of a pass as it is: where a wanted label's first
      group has no entries, its groups hold only notes, the last one's the first one's. */
  ghost predicate SeedSettles(groups: seq<Group>, wants: Features) {
    forall k :: 0 <= k < |groups| && FirstOfLabel(groups, k) ==> BlockSettled(groups, wants, k)
  }

  ghost predicate BlockSettled(groups: seq<Group>, wants: Features, k: int)
    requires 0 <= k < |groups|
  {
    groups[k].WantedBy(wants) && groups[k].Domains() == [] ==>
      OnlyNotes(groups, groups[k].Label()) && LastLines(groups, groups[k].Label()) == groups[k].lines
  }

  lemma FreshBlock(lines: seq<string>, groups: seq<Group>, wants: Features, k: nat)
    requires k < |groups| && forall g <- groups :: WellFormed(g)
    requires ViewOf(lines, groups[k].Label()) == Closed(if groups[k].WantedBy(wants) then groups[k].lines else [OmittedNote(groups[k].features)])
    ensures ViewOf(Reconciled(lines, groups, wants), groups[k].Label()) == ViewOf(lines, groups[k].Label())
       <==> BlockSettled(groups, wants, k)
  {
    hide WellFormed, ViewOf, EntryDomains, Adjust, Missing, NonNotes, Step, Reconciled, Group.Label, OmittedNote;
    var g, tag := groups[k], groups[k].Label();
    assert groups[..|groups|] == groups;
    assert g in groups;
    if !g.WantedBy(wants) {
      OmittedHasNoEntries(g.features);
      BlockStays(lines, groups, |groups|, wants, k);
    } else if g.Domains() != [] {
      BlockStays(lines, groups, |groups|, wants, k);
    } else if !Barren(groups, tag) {
      var h :| h in groups && h.Label() == tag && h.Domains() != [];
      var i :| 0 <= i < |groups| && groups[i] == h;
      SameFeatures(h, g);
      Filled(lines, groups, |groups|, wants, i);
      if OnlyNotes(groups, tag) {
        NotesHaveNoDomains(h);
      }
    } else if !OnlyNotes(groups, tag) {
      var h :| h in groups && h.Label() == tag && NonNotes(h.lines) != [];
      var i :| 0 <= i < |groups| && groups[i] == h;
      SameFeatures(h, g);
      BarrenGrows(lines, groups, |groups|, wants, i);
    } else {
      LastNotesWin(lines, groups, |groups|, wants, k);
    }
  }

  lemma OmittedHasNoEntries(features: seq<string>)
    ensures EntryDomains([OmittedNote(features)]) == []
  {
    WrittenNote(features);
    NoteIsPlain(OmittedNote(features));
    NoEntries([OmittedNote(features)]);
  }

  /** What a pass leaves of the first block of a label in a fresh seed. */
  lemma FreshAt(t: Doc, k: nat, wants: Features, d': Doc)
    requires AcceptedDoc(t) && Loose(d', t) && k < |t| && t[k].Block? && IsFirst(t, k)
    requires Reconciled(Flatten(SeedDoc(t, wants)), DocGroups(t), wants) == Flatten(d')
    ensures |SeedDoc(t, wants)| == |t| && |DocGroups(t[..k])| < |DocGroups(t)|
    ensures d'[k] == SeedDoc(t, wants)[k] <==> BlockSettled(DocGroups(t), wants, |DocGroups(t[..k])|)
    ensures Flatten(d') == Flatten(SeedDoc(t, wants)) ==> d'[k] == SeedDoc(t, wants)[k]
  {
    hide KindOf, Accepted, ParseMarker, Fields, OneLine, EntryDomains, FindGroup, Adjust, Reconciled, ViewOf, LastLines, Group.Label,
         Flatten, OnlyNotes, Group.WantedBy, IsFirst, FirstOfLabel, BlockSettled, OmittedNote;
    var d := SeedDoc(t, wants);
    SeedIsLoose(t, wants);
    TemplateGroupsWellFormed(t);
    FirstOfBoth(t, k);
    FirstView(d, t, k);
    FirstView(d', t, k);
    SeedSegAt(t, k, wants);
    assert SameShell(d[k], t[k]) && SameShell(d'[k], t[k]);
    FreshBlock(Flatten(d), DocGroups(t), wants, |DocGroups(t[..k])|);
  }

  lemma PlainShell(s: Seg, t: Seg)
    requires SameShell(s, t)
    ensures t.Plain? ==> s == t
  {
  }

  /** Reconciling a fresh seed for the same configuration leaves every line as it is exactly
      when the template's groups settle for a seed. */
  lemma FreshSeedExactly(t: Doc, wants: Features)
    requires AcceptedDoc(t)
    ensures var seed, groups := Flatten(SeedDoc(t, wants)), DocGroups(t);
            Reconciled(seed, groups, wants) == seed <==> SeedSettles(groups, wants)
  {
    hide KindOf, Accepted, ParseMarker, Fields, OneLine, EntryDomains, FindGroup, Adjust, Reconciled, ViewOf, LastLines, Group.Label,
         Flatten, OnlyNotes, Group.WantedBy, IsFirst, FirstOfLabel, BlockSettled, SameShell;
    var groups, d := DocGroups(t), SeedDoc(t, wants);
    var seed := Flatten(d);
    TemplateGroupsWellFormed(t);
    SeedIsLoose(t, wants);
    assert t[..|t|] == t;
    var d' := ReconcileDoc(d, t, wants, wants, |t|);
    forall k | 0 <= k < |t| && t[k].Block? && IsFirst(t, k)
      ensures var n := |DocGroups(t[..k])|; n < |groups| && FirstOfLabel(groups, n)
      ensures d'[k] == d[k] <==> BlockSettled(groups, wants, |DocGroups(t[..k])|)
      ensures Flatten(d') == seed ==> d'[k] == d[k]
    {
      FirstOfBoth(t, k);
      FreshAt(t, k, wants, d');
    }
    forall n | 0 <= n < |groups| && FirstOfLabel(groups, n)
      ensures exists k :: 0 <= k < |t| && t[k].Block? && IsFirst(t, k) && |DocGroups(t[..k])| == n
    {
      var k := GroupPosition(t, n);
      FirstOfBoth(t, k);
    }
    if SeedSettles(groups, wants) {
      forall k | 0 <= k < |t| ensures d'[k] == d[k] {
        assert SameShell(d[k], t[k]) && SameShell(d'[k], t[k]);
        PlainShell(d[k], t[k]);
        PlainShell(d'[k], t[k]);
      }
      assert d' == d;
    }
  }

  // --- as texts ----------------------------------------------------------------------------------

  /** Lines that the text of a list gives back unchanged. */
  ghost predicate Printable(lines: seq<string>) {
    && (forall l <- lines :: OneLine(l))
    && (lines == [""] || (lines != [] && lines[|lines| - 1] != ""))
  }

  lemma StepIsPrintable(lines: seq<string>, g: Group, wants: Features)
    requires Printable(lines) && WellFormed(g) && forall l <- g.lines :: OneLine(l)
    ensures Printable(Step(lines, g, wants))
  {
    hide KindOf, FindGroup, DomainOf, IsNote, NonNotes, Without, Dropped, Missing, Join, OneLine, EntryDomains, OmittedNote, AddedNote;
    MissingFacts(EntryDomains(lines), g.lines);
    WrittenLines(g);
    var start, end := FindGroup(lines, g.Label()).0, FindGroup(lines, g.Label()).1;
    if start >= 0 && end >= 0 {
      var inside := lines[start + 1..end];
      AdjustIsPrintable(inside, g, g.WantedBy(wants));
      hide Adjust;
      var stepped := Step(lines, g, wants);
      assert stepped[|stepped| - 1] == lines[|lines| - 1];
      assert |stepped| >= 2;
    }
  }

  lemma AdjustIsPrintable(inside: seq<string>, g: Group, wanted: bool)
    requires WellFormed(g) && (forall l <- g.lines :: OneLine(l)) && forall l <- inside :: OneLine(l)
    ensures forall l <- Adjust(inside, g, wanted) :: OneLine(l)
  {
    hide DomainOf, IsNote, NonNotes, Without, Dropped, OneLine, EntryDomains, OmittedNote;
    WrittenLines(g);
    NonNotesKeepEntries(inside);
    WithoutFacts(inside, g.Domains());
  }

  lemma WrittenLines(g: Group)
    requires WellFormed(g)
    ensures OneLine(OmittedNote(g.features)) && OneLine(AddedNote(g.features)) && OneLine("") && OneLine("# " + END)
    ensures OneLine("# " + REQUIRES + " " + g.Label())
  {
    hide KindOf, Join;
    JoinIsOneLine(g.features, " ");
    JoinIsOneLine(g.features, " or ");
  }

  lemma {:induction false} PassIsPrintable(lines: seq<string>, groups: seq<Group>, wants: Features)
    requires Printable(lines) && forall g <- groups :: WellFormed(g) && forall l <- g.lines :: OneLine(l)
    ensures Printable(Reconciled(lines, groups, wants))
  {
    hide Step, WellFormed, OneLine;
    if groups != [] {
      assert groups[|groups| - 1] in groups;
      PassIsPrintable(lines, groups[..|groups| - 1], wants);
      StepIsPrintable(Reconciled(lines, groups[..|groups| - 1], wants), groups[|groups| - 1], wants);
    }
  }

  lemma {:induction false} TrimmedEnd(s: string)
    ensures TrimNewlines(s) == "" || TrimNewlines(s)[|TrimNewlines(s)| - 1] != '\n'
  {
    if s != "" && s[|s| - 1] == '\n' {
      TrimmedEnd(s[..|s| - 1]);
    }
  }

  lemma BodyIsPrintable(body: string)
    ensures Printable(BodyLines(body))
  {
    hide OneLine;
    var s := TrimNewlines(body);
    TrimmedEnd(body);
    JoinOfSplit(s, '\n');
    var parts := Split(s, '\n');
    assert forall l <- parts :: OneLine(l) by {
      SplitPartsAreLines(s);
    }
    if parts[|parts| - 1] == "" && |parts| > 1 {
      assert parts == parts[..|parts| - 1] + [""];
      JoinWithFinalEmpty(parts[..|parts| - 1]);
      UnlinesEnd(parts[..|parts| - 1]);
    }
  }

  lemma SplitPartsAreLines(s: string)
    ensures forall l <- Split(s, '\n') :: OneLine(l)
  {
    JoinOfSplit(s, '\n');
  }

  lemma PrintedBack(lines: seq<string>)
    requires Printable(lines)
    ensures BodyLines(Join(lines, "\n") + "\n") == lines
  {
    hide Join, Unlines, BodyLines, OneLine;
    if lines == [""] {
      BlankBody();
    } else {
      UnlinesIsJoin(lines);
      BodyLinesOf(lines);
    }
  }

  lemma BlankBody()
    ensures BodyLines(Join([""], "\n") + "\n") == [""]
  {
    SplitNone("", '\n');
    assert Join([""], "\n") + "\n" == "\n";
    assert TrimNewlines("\n") == TrimNewlines("");
  }

  /** A second `ptrbox new` with the same configuration rewrites no byte of the list,
      whatever the list was before the first. */
  lemma ReconcilingTwiceIsOnce(body: string, template: seq<string>, wants: Features)
    requires forall l <- template :: OneLine(l)
    requires SeedLines(template, wants).Ok?
    requires Settles(GroupsOf(template))
    ensures var groups := GroupsOf(template);
            var once := ReconciledText(body, groups, wants);
            ReconciledText(once, groups, wants) == once
  {
    hide WellFormed, Accepted, OneLine, Reconciled, Settles, Join, BodyLines, Printable;
    var t := TemplateDoc(template, wants);
    GroupsAreDocGroups(template, None);
    TemplateGroupsWellFormed(t);
    var groups := DocGroups(t);
    BodyIsPrintable(body);
    PassIsPrintable(BodyLines(body), groups, wants);
    PrintedBack(Reconciled(BodyLines(body), groups, wants));
    IdempotentExactly(groups);
    assert SecondPassChangesNothing(BodyLines(body), groups, wants);
  }

  lemma {:induction false} SeedDocPrefix(t: Doc, n: nat, wants: Features)
    requires n <= |t|
    ensures |SeedDoc(t, wants)| == |t| && SeedDoc(t[..n], wants) == SeedDoc(t, wants)[..n]
  {
    hide SeedSeg;
    if t != [] {
      SeedDocPrefix(t[1..], if n == 0 then 0 else n - 1, wants);
      if n > 0 {
        assert t[..n][1..] == t[1..][..n - 1];
      }
    }
  }

  /** A seed under a header is the seed of the template under that header. */
  lemma {:induction false} SeedUnderHeader(h: Doc, t: Doc, wants: Features)
    requires forall s <- h :: s.Plain?
    ensures SeedDoc(h + t, wants) == h + SeedDoc(t, wants)
  {
    if h == [] {
      assert h + t == t && h + SeedDoc(t, wants) == SeedDoc(t, wants);
    } else {
      assert h[0] in h && (h + t)[1..] == h[1..] + t;
      SeedUnderHeader(h[1..], t, wants);
      assert [h[0]] + (h[1..] + SeedDoc(t, wants)) == h + SeedDoc(t, wants);
    }
  }

  lemma BlankSeed(wants: Features)
    ensures SeedDoc([Plain("")], wants) == [Plain("")]
  {
  }

  /** The fresh text, header and all: reconciling it for the configuration it was seeded for
      gives the same text back, up to its final newlines, exactly when its groups settle for
      a seed. */
  lemma FreshTextExactly(template: seq<string>, header: seq<string>, wants: Features)
    requires forall l <- template :: OneLine(l)
    requires forall l <- header :: HeaderLine(l)
    requires SeedLines(template, wants).Ok?
    ensures var body := Unlines(header + SeedLines(template, wants).value);
            ReconciledText(body, GroupsOf(template), wants) == TrimNewlines(body) + "\n"
            <==> SeedSettles(GroupsOf(template), wants)
  {
    hide Accepted, ParseMarker, DomainOf, OneLine, SeedSettles, Reconciled, SeedDoc, SeedLines, GroupsFrom, DocFrom, WellFormed,
         Flatten, DocGroups, Unlines, Split, Join, Printable, TrimNewlines, HeaderLine;
    var t := TemplateDoc(template, wants);
    GroupsAreDocGroups(template, None);
    var h := HeaderDoc(header);
    var whole := h + t;
    FlattenAppend(h, SeedDoc(t, wants));
    DocGroupsAppend(h, t);
    assert [] + DocGroups(t) == DocGroups(t);
    SeedUnderHeader(h, t, wants);
    SeedFollows(whole, wants);
    var body := Unlines(header + SeedLines(template, wants).value);
    var d', t' := TrimDoc(SeedDoc(whole, wants), whole, wants);
    if t' == [Plain("")] {
      BlankSeed(wants);
    } else {
      SeedDocPrefix(whole, |t'|, wants);
    }
    FreshSeedExactly(t', wants);
    var lines := BodyLines(body);
    var once := Reconciled(lines, DocGroups(t), wants);
    BodyIsPrintable(body);
    TemplateGroupsWellFormed(t');
    PassIsPrintable(lines, DocGroups(t), wants);
    PrintedBack(lines);
    PrintedBack(once);
    JoinOfSplit(TrimNewlines(body), '\n');
    assert GroupsOf(template) == DocGroups(t);
    assert Flatten(SeedDoc(whole, wants)) == header + SeedLines(template, wants).value;
    assert d' == SeedDoc(t', wants);
    assert Join(lines, "\n") == TrimNewlines(body);
    assert ReconciledText(body, DocGroups(t), wants) == TrimNewlines(body) + "\n" <==> once == lines;
  }
}
