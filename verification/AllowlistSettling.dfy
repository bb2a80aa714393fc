/** A template that settles: what it takes for a second pass to change nothing, and why that is
    enough, on every list a person may have made. */
module AllowlistSettling {
  import opened Text
  import opened Allowlist
  import opened AllowlistLines
  import opened AllowlistViews

  // --- the condition -----------------------------------------------------------------------------

  /** Groups of one label share one block of a list; none of them has entries. */
  ghost predicate Barren(groups: seq<Group>, tag: string) {
    forall g <- groups :: g.Label() == tag ==> g.Domains() == []
  }

  ghost predicate OnlyNotes(groups: seq<Group>, tag: string) {
    forall g <- groups :: g.Label() == tag ==> NonNotes(g.lines) == []
  }

  /** A domain of both, and a configuration that wants one group and not the other. */
  ghost predicate Contested(kept: Group, dropped: Group, d: string) {
    d in kept.Domains() && d in dropped.Domains() && exists f <- kept.features :: f !in dropped.features
  }

  /** The groups labelled `dropped` have given the domain up before the last chance of
      those labelled `kept` to ask for it. */
  ghost predicate GivenUpFirst(groups: seq<Group>, kept: string, dropped: string, d: string) {
    exists j, i :: 0 <= j < i < |groups|
                   && groups[j].Label() == dropped && d in groups[j].Domains()
                   && groups[i].Label() == kept && d in groups[i].Domains()
  }

  ghost predicate Settles(groups: seq<Group>) {
    && (forall g <- groups :: Barren(groups, g.Label()) ==> OnlyNotes(groups, g.Label()))
    && forall i, j, d :: 0 <= i < |groups| && 0 <= j < |groups| && Contested(groups[i], groups[j], d)
                         ==> GivenUpFirst(groups, groups[i].Label(), groups[j].Label(), d)
  }

  /** No label is repeated by groups that hold only notes. */
  ghost predicate NotesOnce(groups: seq<Group>) {
    forall i, j :: 0 <= i < j < |groups| && groups[i].Label() == groups[j].Label() ==> !OnlyNotes(groups, groups[i].Label())
  }

  lemma SameFeatures(a: Group, b: Group)
    requires WellFormed(a) && WellFormed(b) && a.Label() == b.Label()
    ensures a.features == b.features
  {
    FieldsOfJoin(a.features);
    FieldsOfJoin(b.features);
  }

  // --- one pass ----------------------------------------------------------------------------------

  /** A list after the turns of the first `n` groups. */
  ghost function After(lines: seq<string>, groups: seq<Group>, n: nat, wants: Features): seq<string>
    requires n <= |groups|
  {
    Reconciled(lines, groups[..n], wants)
  }

  lemma AfterNext(lines: seq<string>, groups: seq<Group>, n: nat, wants: Features)
    requires n < |groups|
    ensures After(lines, groups, n + 1, wants) == Step(After(lines, groups, n, wants), groups[n], wants)
  {
    hide Step;
    assert groups[..n + 1][..n] == groups[..n];
  }

  /** What one turn does to the view of a label. */
  lemma AfterViews(lines: seq<string>, groups: seq<Group>, n: nat, wants: Features, tag: string)
    requires n < |groups| && forall g <- groups :: WellFormed(g)
    ensures var was := After(lines, groups, n, wants);
            ViewOf(After(lines, groups, n + 1, wants), tag)
            == if groups[n].Label() == tag then NextView(ViewOf(was, tag), EntryDomains(was), groups[n], wants) else ViewOf(was, tag)
  {
    hide Step, WellFormed, NextView, ViewOf, EntryDomains, After;
    AfterNext(lines, groups, n, wants);
    assert groups[n] in groups;
    StepViews(After(lines, groups, n, wants), groups[n], wants, tag);
  }

  /** What the turns so far have made of an unwanted label's block: it has none of their domains. */
  lemma {:induction false} GivenUp(lines: seq<string>, groups: seq<Group>, n: nat, wants: Features, k: nat)
    requires k < n <= |groups| && forall g <- groups :: WellFormed(g)
    requires !groups[k].WantedBy(wants)
    ensures var v := ViewOf(After(lines, groups, n, wants), groups[k].Label());
            v.Closed? ==> forall d <- groups[k].Domains() :: d !in EntryDomains(v.inside)
    decreases n
  {
    hide WellFormed, ViewOf, EntryDomains, After, Adjust;
    var tag, m := groups[k].Label(), n - 1;
    AfterViews(lines, groups, m, wants, tag);
    var was := ViewOf(After(lines, groups, m, wants), tag);
    if k < m {
      GivenUp(lines, groups, m, wants, k);
    }
    if groups[m].Label() == tag {
      assert groups[m] in groups && groups[k] in groups;
      SameFeatures(groups[m], groups[k]);
      if was.Closed? {
        AdjustDrops(was.inside, groups[m]);
      }
    }
  }

  /** Dropping leaves no domain of the group, and brings none. */
  lemma AdjustDrops(inside: seq<string>, g: Group)
    ensures forall d <- EntryDomains(Adjust(inside, g, false)) :: d in EntryDomains(inside) && d !in g.Domains()
  {
    hide DomainOf, IsNote, EntryDomains, Without, Dropped, OmittedNote;
    var kept := Without(inside, g.Domains());
    WithoutFacts(inside, g.Domains());
    WrittenNote(g.features);
    NoteIsPlain(OmittedNote(g.features));
    NoEntries([OmittedNote(g.features)]);
    EntriesAppend([OmittedNote(g.features)], kept);
    assert Dropped(inside, g.Domains()) == [] ==> kept == inside;
  }

  /** A wanted label's block has entries once a group with entries has had its turn. */
  lemma {:induction false} Filled(lines: seq<string>, groups: seq<Group>, n: nat, wants: Features, k: nat)
    requires k < n <= |groups| && forall g <- groups :: WellFormed(g)
    requires groups[k].WantedBy(wants) && groups[k].Domains() != []
    ensures var v := ViewOf(After(lines, groups, n, wants), groups[k].Label());
            v.Closed? ==> EntryDomains(v.inside) != []
    decreases n
  {
    hide WellFormed, ViewOf, EntryDomains, After, Adjust, Missing;
    var tag, m := groups[k].Label(), n - 1;
    AfterViews(lines, groups, m, wants, tag);
    var before := After(lines, groups, m, wants);
    var was := ViewOf(before, tag);
    if k < m {
      Filled(lines, groups, m, wants, k);
    }
    if groups[m].Label() == tag {
      assert groups[m] in groups && groups[k] in groups;
      SameFeatures(groups[m], groups[k]);
      EntriesAppend([AddedNote(groups[m].features)], Missing(EntryDomains(before), groups[m].lines));
      if was.Closed? {
        AdjustFills(was.inside, groups[m]);
      }
    }
  }

  lemma AdjustFills(inside: seq<string>, g: Group)
    ensures EntryDomains(inside) != [] ==> Adjust(inside, g, true) == inside
    ensures EntryDomains(inside) == [] ==> EntryDomains(Adjust(inside, g, true)) == g.Domains()
  {
    hide DomainOf, IsNote, EntryDomains, NonNotes;
    NonNotesKeepEntries(inside);
    EntriesAppend(NonNotes(inside), g.lines);
  }

  /** A block that is there stays there. */
  lemma {:induction false} StillThere(lines: seq<string>, groups: seq<Group>, m: nat, n: nat, wants: Features, tag: string)
    requires m <= n <= |groups| && forall g <- groups :: WellFormed(g)
    ensures ViewOf(After(lines, groups, n, wants), tag).Absent? ==> ViewOf(After(lines, groups, m, wants), tag).Absent?
    decreases n
  {
    hide WellFormed, ViewOf, EntryDomains, After, Adjust, Missing;
    if m < n {
      AfterViews(lines, groups, n - 1, wants, tag);
      StillThere(lines, groups, m, n - 1, wants, tag);
    }
  }

  /** A domain that the last group asking for it found held is held to the end: whoever
      gives it up has done so before. */
  lemma {:induction false} StillHeld(lines: seq<string>, groups: seq<Group>, n: nat, wants: Features, k: nat, d: string)
    requires k < n <= |groups| && Settles(groups) && forall g <- groups :: WellFormed(g)
    requires groups[k].WantedBy(wants) && d in groups[k].Domains()
    requires forall i :: k < i < |groups| && groups[i].Label() == groups[k].Label() ==> d !in groups[i].Domains()
    requires ViewOf(After(lines, groups, n, wants), groups[k].Label()).Absent?
    ensures d in EntryDomains(After(lines, groups, n, wants))
    decreases n
  {
    hide WellFormed, ViewOf, EntryDomains, After, Step, Missing, Adjust;
    var m := n - 1;
    var before := After(lines, groups, m, wants);
    AfterNext(lines, groups, m, wants);
    StillThere(lines, groups, m, n, wants, groups[k].Label());
    if m == k {
      AfterViews(lines, groups, m, wants, groups[k].Label());
      MissingFacts(EntryDomains(before), groups[k].lines);
      NotAdded(before, groups[k], wants);
    } else {
      StillHeld(lines, groups, m, wants, k, d);
      var h := groups[m];
      if !h.WantedBy(wants) && d in h.Domains() {
        var f :| f in groups[k].features && f in wants;
        assert Contested(groups[k], h, d);
        var j, i :| 0 <= j < i < |groups| && groups[j].Label() == h.Label() && d in groups[j].Domains()
                    && groups[i].Label() == groups[k].Label() && d in groups[i].Domains();
        assert i <= k;
        assert groups[j] in groups && h in groups;
        SameFeatures(groups[j], h);
        GivenUp(lines, groups, m, wants, j);
      }
      StepKeepsEntries(before, h, wants, d);
    }
  }

  lemma NotAdded(lines: seq<string>, g: Group, wants: Features)
    requires ViewOf(lines, g.Label()).Absent?
    requires !g.WantedBy(wants) || EntryDomains(Missing(EntryDomains(lines), g.lines)) == []
    ensures Step(lines, g, wants) == lines
  {
    QuietIsFixed(lines, g, wants);
  }

  lemma LastHolder(groups: seq<Group>, k: nat, d: string) returns (i: nat)
    requires k < |groups| && d in groups[k].Domains()
    ensures k <= i < |groups| && groups[i].Label() == groups[k].Label() && d in groups[i].Domains()
    ensures forall j :: i < j < |groups| && groups[j].Label() == groups[k].Label() ==> d !in groups[j].Domains()
  {
    hide EntryDomains, Group.Label;
    i := |groups| - 1;
    while i > k && !(groups[i].Label() == groups[k].Label() && d in groups[i].Domains())
      invariant k <= i < |groups|
      invariant forall j :: i < j < |groups| && groups[j].Label() == groups[k].Label() ==> d !in groups[j].Domains()
    {
      i := i - 1;
    }
  }

  lemma NotesTwice(inside: seq<string>, g: Group)
    requires NonNotes(g.lines) == []
    ensures Adjust(Adjust(inside, g, true), g, true) == Adjust(inside, g, true)
  {
    hide DomainOf, IsNote, EntryDomains, NonNotes;
    NonNotesKeepEntries(inside);
    NonNotesKeepEntries(g.lines);
    EntriesAppend(NonNotes(inside), g.lines);
    NonNotesAppend(NonNotes(inside), g.lines);
    assert NonNotes(inside) + [] == NonNotes(inside);
  }

  /** The block of a label with one group, and that only notes, is restored once. */
  lemma {:induction false} NotesSettle(lines: seq<string>, groups: seq<Group>, n: nat, wants: Features, k: nat)
    requires k < n <= |groups| && forall g <- groups :: WellFormed(g)
    requires groups[k].WantedBy(wants) && NonNotes(groups[k].lines) == []
    requires forall i :: 0 <= i < |groups| && i != k ==> groups[i].Label() != groups[k].Label()
    ensures var v := ViewOf(After(lines, groups, n, wants), groups[k].Label());
            v.Closed? ==> Adjust(v.inside, groups[k], true) == v.inside
    decreases n
  {
    hide WellFormed, ViewOf, EntryDomains, After, Adjust, Missing, NonNotes;
    var tag, m := groups[k].Label(), n - 1;
    AfterViews(lines, groups, m, wants, tag);
    var before := After(lines, groups, m, wants);
    if k < m {
      NotesSettle(lines, groups, m, wants, k);
    } else {
      var was := ViewOf(before, tag);
      NonNotesKeepEntries(groups[k].lines);
      MissingFacts(EntryDomains(before), groups[k].lines);
      if was.Closed? {
        NotesTwice(was.inside, groups[k]);
      } else if was.Absent? {
        var missing := EntryDomains(Missing(EntryDomains(before), groups[k].lines));
        assert missing != [] ==> missing[0] in EntryDomains(groups[k].lines);
        NoEntriesInNotes(groups[k].lines);
      }
    }
  }

  lemma NoEntriesInNotes(lines: seq<string>)
    requires NonNotes(lines) == []
    ensures EntryDomains(lines) == []
  {
    NonNotesKeepEntries(lines);
  }

  /** After a pass over a template that settles, every group is as it should be. */
  lemma PassSettles(lines: seq<string>, groups: seq<Group>, wants: Features)
    requires forall g <- groups :: WellFormed(g)
    requires NotesOnce(groups) && Settles(groups)
    ensures forall g <- groups :: Quiet(Reconciled(lines, groups, wants), g, wants)
  {
    hide Step, Quiet, WellFormed, Settles, NotesOnce;
    assert groups[..|groups|] == groups;
    forall g | g in groups ensures Quiet(Reconciled(lines, groups, wants), g, wants) {
      var k :| 0 <= k < |groups| && groups[k] == g;
      GroupSettles(lines, groups, k, wants);
    }
  }

  lemma GroupSettles(lines: seq<string>, groups: seq<Group>, k: nat, wants: Features)
    requires k < |groups| && forall g <- groups :: WellFormed(g)
    requires NotesOnce(groups) && Settles(groups)
    ensures Quiet(After(lines, groups, |groups|, wants), groups[k], wants)
  {
    hide WellFormed, ViewOf, EntryDomains, After, Adjust, Missing, NonNotes, Settles, NotesOnce;
    var once, g := After(lines, groups, |groups|, wants), groups[k];
    var v := ViewOf(once, g.Label());
    if v.Closed? {
      if g.WantedBy(wants) {
        BlockSettles(lines, groups, k, wants);
      } else {
        GivenUp(lines, groups, |groups|, wants, k);
        NothingLeft(v.inside, g);
      }
    } else if v.Absent? && g.WantedBy(wants) {
      MissingFacts(EntryDomains(once), g.lines);
      forall d | d in g.Domains() ensures d in EntryDomains(once) {
        var i := LastHolder(groups, k, d);
        assert groups[i] in groups && g in groups;
        SameFeatures(groups[i], g);
        StillHeld(lines, groups, |groups|, wants, i, d);
      }
      NothingMissing(EntryDomains(once), g.lines);
    }
  }

  lemma NothingLeft(inside: seq<string>, g: Group)
    requires forall d <- g.Domains() :: d !in EntryDomains(inside)
    ensures Adjust(inside, g, false) == inside
  {
    hide DomainOf, IsNote, EntryDomains;
    var dropped := Dropped(inside, g.Domains());
    assert dropped == [] || dropped[0] in dropped;
    WithoutFacts(inside, g.Domains());
  }

  lemma BlockSettles(lines: seq<string>, groups: seq<Group>, k: nat, wants: Features)
    requires k < |groups| && groups[k].WantedBy(wants) && forall g <- groups :: WellFormed(g)
    requires NotesOnce(groups) && Settles(groups)
    requires ViewOf(After(lines, groups, |groups|, wants), groups[k].Label()).Closed?
    ensures var v := ViewOf(After(lines, groups, |groups|, wants), groups[k].Label());
            Adjust(v.inside, groups[k], true) == v.inside
  {
    hide WellFormed, ViewOf, EntryDomains, After, Adjust, Missing, NonNotes;
    var tag := groups[k].Label();
    assert groups[k] in groups;
    if Barren(groups, tag) {
      assert OnlyNotes(groups, tag);
      NotesSettle(lines, groups, |groups|, wants, k);
    } else {
      var g :| g in groups && g.Label() == tag && g.Domains() != [];
      var i :| 0 <= i < |groups| && groups[i] == g;
      SameFeatures(g, groups[k]);
      Filled(lines, groups, |groups|, wants, i);
      AdjustFills(ViewOf(After(lines, groups, |groups|, wants), tag).inside, groups[k]);
    }
  }

  // --- turns that cancel -------------------------------------------------------------------------

  // Groups that share a label and hold only notes replace each other's notes, so their turns
  // change the block and change it back; all but the last of them might as well not be there.

  /** A list with the inside of one block replaced. */
  ghost function Refilled(lines: seq<string>, tag: string, inside: seq<string>): seq<string>
    requires ViewOf(lines, tag).Closed?
  {
    var (start, end) := FindGroup(lines, tag);
    Spliced(lines, start, end, inside)
  }

  lemma FoundBefore(lines: seq<string>, start: int, end: int, inside: seq<string>, other: string, s: int, e: int)
    requires 0 <= s < e < start < end < |lines| && FindGroup(lines, other) == (s, e)
    ensures FindGroup(Spliced(lines, start, end, inside), other) == (s, e)
  {
    hide KindOf, FindGroup, Spliced;
    var s0, stop := GroupStart(lines, other);
    SplicedLines(lines, start, end, inside);
    FindGroupIs(Spliced(lines, start, end, inside), other, s, e);
  }

  lemma FoundAfter(lines: seq<string>, start: int, end: int, inside: seq<string>, other: string, s: int, e: int)
    requires 0 <= start < end < s < e < |lines| && FindGroup(lines, other) == (s, e)
    requires forall l <- inside :: KindOf(l) == Other
    ensures var shift := |inside| - (end - start - 1);
            FindGroup(Spliced(lines, start, end, inside), other) == (s + shift, e + shift)
  {
    hide KindOf, FindGroup, Spliced;
    var s0, stop := GroupStart(lines, other);
    var spliced, shift := Spliced(lines, start, end, inside), |inside| - (end - start - 1);
    SplicedLines(lines, start, end, inside);
    SplicedOpens(lines, start, end, inside, other, s);
    assert forall i :: s + shift <= i <= e + shift ==> spliced[i] == lines[i - shift];
    FindGroupIs(spliced, other, s + shift, e + shift);
  }

  lemma SpliceCommutes(lines: seq<string>, s: int, e: int, x: seq<string>, s': int, e': int, y: seq<string>)
    requires 0 <= s < e < s' < e' < |lines|
    ensures var shift := |x| - (e - s - 1);
            Spliced(Spliced(lines, s, e, x), s' + shift, e' + shift, y) == Spliced(Spliced(lines, s', e', y), s, e, x)
  {
    var a, b, c := lines[..s + 1], lines[e..s' + 1], lines[e'..];
    var shift := |x| - (e - s - 1);
    assert Spliced(lines, s, e, x)[..s' + shift + 1] == a + x + b;
    assert Spliced(lines, s, e, x)[e' + shift..] == c;
    assert Spliced(lines, s', e', y)[..s + 1] == a;
    assert Spliced(lines, s', e', y)[e..] == b + y + c;
    assert a + x + b + y + c == a + x + (b + y + c);
  }

  /** Closed blocks of two labels do not overlap. */
  lemma Disjoint(lines: seq<string>, a: string, b: string)
    requires a != b && ViewOf(lines, a).Closed? && ViewOf(lines, b).Closed?
    ensures var p, q := FindGroup(lines, a), FindGroup(lines, b);
            0 <= p.0 < p.1 < q.0 < q.1 < |lines| || 0 <= q.0 < q.1 < p.0 < p.1 < |lines|
  {
    hide KindOf, FindGroup;
    var s, stop := GroupStart(lines, a);
    var s', stop' := GroupStart(lines, b);
  }

  lemma RefillsCommute(lines: seq<string>, a: string, x: seq<string>, b: string, y: seq<string>)
    requires a != b && ViewOf(lines, a).Closed? && ViewOf(lines, b).Closed?
    requires (forall l <- x :: KindOf(l) == Other) && forall l <- y :: KindOf(l) == Other
    ensures ViewOf(Refilled(lines, a, x), b) == ViewOf(lines, b) && ViewOf(Refilled(lines, b, y), a) == ViewOf(lines, a)
    ensures Refilled(Refilled(lines, a, x), b, y) == Refilled(Refilled(lines, b, y), a, x)
  {
    hide KindOf, FindGroup, Spliced;
    Disjoint(lines, a, b);
    var (s, e) := FindGroup(lines, a);
    var (s', e') := FindGroup(lines, b);
    SpliceOtherView(lines, s, e, x, a, b);
    SpliceOtherView(lines, s', e', y, b, a);
    if e < s' {
      FoundAfter(lines, s, e, x, b, s', e');
      FoundBefore(lines, s', e', y, a, s, e);
      SpliceCommutes(lines, s, e, x, s', e', y);
    } else {
      FoundBefore(lines, s, e, x, b, s', e');
      FoundAfter(lines, s', e', y, a, s, e);
      SpliceCommutes(lines, s', e', y, s, e, x);
    }
  }

  lemma RefillTwice(lines: seq<string>, tag: string, x: seq<string>, y: seq<string>)
    requires ViewOf(lines, tag).Closed? && forall l <- x :: KindOf(l) == Other
    ensures ViewOf(Refilled(lines, tag, x), tag) == Closed(x)
    ensures Refilled(Refilled(lines, tag, x), tag, y) == Refilled(lines, tag, y)
  {
    hide KindOf, FindGroup;
    var (s, e) := FindGroup(lines, tag);
    var spliced, stop := Spliced(lines, s, e, x), s + 1 + |x|;
    SpliceView(lines, s, e, x, tag);
    var s0, stop0 := GroupStart(lines, tag);
    SplicedLines(lines, s, e, x);
    forall i | s < i < stop ensures KindOf(spliced[i]) == Other {
      assert x[i - s - 1] in x;
    }
    assert spliced[stop] == lines[e];
    FindGroupIs(spliced, tag, s, stop);
    assert spliced[..s + 1] == lines[..s + 1] && spliced[stop..] == lines[e..];
  }

  lemma RefillEntries(lines: seq<string>, tag: string, x: seq<string>)
    requires ViewOf(lines, tag).Closed? && EntryDomains(x) == EntryDomains(ViewOf(lines, tag).inside)
    ensures EntryDomains(Refilled(lines, tag, x)) == EntryDomains(lines)
  {
    hide FindGroup, EntryDomains;
    var (s, e) := FindGroup(lines, tag);
    assert lines == lines[..s + 1] + lines[s + 1..e] + lines[e..];
    EntriesAround(lines[..s + 1], lines[s + 1..e], lines[e..]);
    EntriesAround(lines[..s + 1], x, lines[e..]);
  }

  lemma RefillLonger(lines: seq<string>, more: seq<string>, tag: string, x: seq<string>)
    requires ViewOf(lines, tag).Closed?
    ensures ViewOf(lines + more, tag) == ViewOf(lines, tag)
    ensures Refilled(lines + more, tag, x) == Refilled(lines, tag, x) + more
  {
    hide KindOf, FindGroup;
    var (s, e) := FindGroup(lines, tag);
    var s0, stop := GroupStart(lines, tag);
    var longer := lines + more;
    assert forall i :: 0 <= i < |lines| ==> longer[i] == lines[i];
    FindGroupIs(longer, tag, s, e);
    assert longer[..s + 1] == lines[..s + 1] && longer[e..] == lines[e..] + more;
    assert longer[s + 1..e] == lines[s + 1..e];
  }

  /** The turn of another label does not see what is inside a block, but for its entries. */
  lemma StepPast(lines: seq<string>, tag: string, x: seq<string>, h: Group, wants: Features)
    requires WellFormed(h) && h.Label() != tag && ViewOf(lines, tag).Closed?
    requires EntryDomains(x) == EntryDomains(ViewOf(lines, tag).inside) && forall l <- x :: KindOf(l) == Other
    ensures ViewOf(Step(lines, h, wants), tag) == ViewOf(lines, tag)
    ensures Step(Refilled(lines, tag, x), h, wants) == Refilled(Step(lines, h, wants), tag, x)
  {
    hide KindOf, FindGroup, Adjust, Missing, EntryDomains, Spliced, Refilled, Appended, WellFormed;
    StepViews(lines, h, wants, tag);
    RefillOtherView(lines, tag, x, h.Label());
    RefillEntries(lines, tag, x);
    var v := ViewOf(lines, h.Label());
    if v.Closed? {
      var adjusted := Adjust(v.inside, h, h.WantedBy(wants));
      InsideIsPlain(lines, h.Label());
      AdjustIsPlain(v.inside, h, h.WantedBy(wants));
      RefillsCommute(lines, tag, x, h.Label(), adjusted);
      StepIsRefill(lines, h, wants);
      StepIsRefill(Refilled(lines, tag, x), h, wants);
    } else if v.Absent? {
      AppendedSame(lines, Refilled(lines, tag, x), h);
      RefillLonger(lines, Appended(lines, h), tag, x);
    }
  }

  lemma RefillOtherView(lines: seq<string>, tag: string, x: seq<string>, other: string)
    requires ViewOf(lines, tag).Closed? && other != tag && forall l <- x :: KindOf(l) == Other
    ensures ViewOf(Refilled(lines, tag, x), other) == ViewOf(lines, other)
  {
    hide KindOf, FindGroup, Spliced;
    var (s, e) := FindGroup(lines, tag);
    SpliceOtherView(lines, s, e, x, tag, other);
  }

  lemma StepIsRefill(lines: seq<string>, h: Group, wants: Features)
    requires ViewOf(lines, h.Label()).Closed?
    ensures Step(lines, h, wants) == Refilled(lines, h.Label(), Adjust(ViewOf(lines, h.Label()).inside, h, h.WantedBy(wants)))
  {
    hide FindGroup, Adjust;
  }

  lemma AppendedSame(a: seq<string>, b: seq<string>, h: Group)
    requires EntryDomains(a) == EntryDomains(b)
    ensures Appended(a, h) == Appended(b, h)
  {
    hide EntryDomains, Missing;
  }

  lemma {:induction false} PassPast(lines: seq<string>, tag: string, x: seq<string>, groups: seq<Group>, wants: Features)
    requires (forall g <- groups :: WellFormed(g) && g.Label() != tag) && ViewOf(lines, tag).Closed?
    requires EntryDomains(x) == EntryDomains(ViewOf(lines, tag).inside) && forall l <- x :: KindOf(l) == Other
    ensures ViewOf(Reconciled(lines, groups, wants), tag) == ViewOf(lines, tag)
    ensures Reconciled(Refilled(lines, tag, x), groups, wants) == Refilled(Reconciled(lines, groups, wants), tag, x)
  {
    hide KindOf, EntryDomains, ViewOf, Refilled, Step, WellFormed;
    if groups != [] {
      var n := |groups| - 1;
      assert groups[n] in groups;
      PassPast(lines, tag, x, groups[..n], wants);
      StepPast(Reconciled(lines, groups[..n], wants), tag, x, groups[n], wants);
    }
  }

  /** Two groups of one label that hold only notes, with other labels between: the first
      turn makes no difference. */
  lemma FirstTurnIsLost(lines: seq<string>, g: Group, between: seq<Group>, h: Group, wants: Features)
    requires WellFormed(g) && WellFormed(h) && g.Label() == h.Label() && NonNotes(g.lines) == NonNotes(h.lines) == []
    requires forall b <- between :: WellFormed(b) && b.Label() != g.Label()
    ensures Step(Reconciled(Step(lines, g, wants), between, wants), h, wants) == Step(Reconciled(lines, between, wants), h, wants)
  {
    hide KindOf, FindGroup, ViewOf, Refilled, Step, WellFormed, Reconciled, EntryDomains, NonNotes, Adjust;
    NoEntriesInNotes(g.lines);
    NoEntriesInNotes(h.lines);
    SameFeatures(g, h);
    var v, tag := ViewOf(lines, g.Label()), g.Label();
    if v.Closed? && g.WantedBy(wants) && EntryDomains(v.inside) == [] {
      var x := NonNotes(v.inside) + g.lines;
      NotesReplaced(v.inside, g);
      InsideIsPlain(lines, tag);
      AdjustIsPlain(v.inside, g, true);
      StepIsRefill(lines, g, wants);
      PassPast(lines, tag, x, between, wants);
      var s := Reconciled(lines, between, wants);
      RefillTwice(s, tag, x, NonNotes(v.inside) + h.lines);
      StepIsRefill(Refilled(s, tag, x), h, wants);
      StepIsRefill(s, h, wants);
      NotesReplaced(v.inside, h);
      NotesReplaced(x, h);
    } else {
      NothingToRestore(lines, g, wants);
    }
  }

  lemma NotesReplaced(inside: seq<string>, g: Group)
    requires EntryDomains(inside) == [] && NonNotes(g.lines) == []
    ensures var x := NonNotes(inside) + g.lines;
            Adjust(inside, g, true) == x && EntryDomains(x) == [] && NonNotes(x) == NonNotes(inside)
  {
    hide DomainOf, IsNote, EntryDomains, NonNotes;
    NonNotesKeepEntries(inside);
    NoEntriesInNotes(g.lines);
    EntriesAppend(NonNotes(inside), g.lines);
    NonNotesAppend(NonNotes(inside), g.lines);
    assert NonNotes(inside) + [] == NonNotes(inside);
  }

  lemma NothingToRestore(lines: seq<string>, g: Group, wants: Features)
    requires EntryDomains(g.lines) == []
    requires var v := ViewOf(lines, g.Label()); v.Closed? && g.WantedBy(wants) ==> EntryDomains(v.inside) != []
    ensures Step(lines, g, wants) == lines
  {
    hide KindOf, FindGroup, EntryDomains, ViewOf, Step, Missing, Adjust;
    var missing := EntryDomains(Missing(EntryDomains(lines), g.lines));
    assert missing == [] || missing[0] in missing;
    MissingFacts(EntryDomains(lines), g.lines);
    var v := ViewOf(lines, g.Label());
    if v.Closed? {
      AdjustFills(v.inside, g);
      NothingLeft(v.inside, g);
    }
    QuietIsFixed(lines, g, wants);
  }

  function Less(groups: seq<Group>, k: nat): seq<Group>
    requires k < |groups|
  {
    groups[..k] + groups[k + 1..]
  }

  /** A group of notes whose label comes again with notes might as well not be there. */
  lemma NotesAreLost(lines: seq<string>, groups: seq<Group>, k: nat, j: nat, wants: Features)
    requires k < j < |groups| && forall g <- groups :: WellFormed(g)
    requires groups[k].Label() == groups[j].Label() && NonNotes(groups[k].lines) == NonNotes(groups[j].lines) == []
    requires forall i :: k < i < j ==> groups[i].Label() != groups[k].Label()
    ensures Reconciled(lines, groups, wants) == Reconciled(lines, Less(groups, k), wants)
  {
    hide Step, WellFormed, NonNotes, Group.Label, Reconciled, Less;
    assert groups[k] in groups && groups[j] in groups;
    var front, between, rest := groups[..k], groups[k + 1..j], groups[j + 1..];
    var s := Reconciled(lines, front, wants);
    forall b | b in between ensures WellFormed(b) && b.Label() != groups[k].Label() {
      assert b in groups;
    }
    FirstTurnIsLost(s, groups[k], between, groups[j], wants);
    InParts(lines, front, groups[k], between, groups[j], rest, wants);
    Parted(groups, k, j);
  }

  lemma Parted(groups: seq<Group>, k: nat, j: nat)
    requires k < j < |groups|
    ensures groups == groups[..k] + [groups[k]] + groups[k + 1..j] + [groups[j]] + groups[j + 1..]
    ensures Less(groups, k) == groups[..k] + groups[k + 1..j] + [groups[j]] + groups[j + 1..]
  {
    assert groups[k + 1..] == groups[k + 1..j] + [groups[j]] + groups[j + 1..];
    assert groups == groups[..k] + [groups[k]] + groups[k + 1..];
  }

  lemma Then(lines: seq<string>, a: seq<Group>, b: seq<Group>, wants: Features)
    ensures Reconciled(lines, a + b, wants) == Reconciled(Reconciled(lines, a, wants), b, wants)
  {
    hide Reconciled;
    ReconciledInTwo(lines, a + b, |a|, wants);
    assert (a + b)[..|a|] == a && (a + b)[|a|..] == b;
  }

  lemma InParts(lines: seq<string>, front: seq<Group>, g: Group, between: seq<Group>, h: Group, rest: seq<Group>, wants: Features)
    ensures var s := Reconciled(lines, front, wants);
            && Reconciled(lines, front + [g] + between + [h] + rest, wants)
               == Reconciled(Step(Reconciled(Step(s, g, wants), between, wants), h, wants), rest, wants)
            && Reconciled(lines, front + between + [h] + rest, wants)
               == Reconciled(Step(Reconciled(s, between, wants), h, wants), rest, wants)
  {
    hide Reconciled;
    Then(lines, front + [g] + between + [h], rest, wants);
    Then(lines, front + [g] + between, [h], wants);
    Then(lines, front + [g], between, wants);
    Then(lines, front, [g], wants);
    Then(lines, front + between + [h], rest, wants);
    Then(lines, front + between, [h], wants);
    Then(lines, front, between, wants);
    forall l, x ensures Reconciled(l, [x], wants) == Step(l, x, wants) {
      OneTurn(l, x, wants);
    }
  }

  lemma OneTurn(lines: seq<string>, g: Group, wants: Features)
    ensures Reconciled(lines, [g], wants) == Step(lines, g, wants)
  {
    hide Step;
    assert [g][..0] == [];
  }

  lemma LessAt(groups: seq<Group>, k: nat)
    requires k < |groups|
    ensures |Less(groups, k)| == |groups| - 1
    ensures forall i :: 0 <= i < |groups| - 1 ==> Less(groups, k)[i] == groups[if i < k then i else i + 1]
  {
  }

  lemma LessHas(groups: seq<Group>, k: nat)
    requires k < |groups|
    ensures forall g <- Less(groups, k) :: g in groups
    ensures forall i :: 0 <= i < |groups| && i != k ==> groups[i] in Less(groups, k)
  {
    LessAt(groups, k);
    hide Less;
    var less := Less(groups, k);
    forall i | 0 <= i < |groups| && i != k ensures groups[i] in less {
      assert less[if i < k then i else i - 1] == groups[i];
    }
  }

  lemma LessGivenUp(groups: seq<Group>, k: nat, kept: string, dropped: string, d: string)
    requires k < |groups| && groups[k].Domains() == [] && GivenUpFirst(groups, kept, dropped, d)
    ensures GivenUpFirst(Less(groups, k), kept, dropped, d)
  {
    hide Group.Label, Group.Domains, Less;
    LessAt(groups, k);
    var less := Less(groups, k);
    var q, p :| 0 <= q < p < |groups| && groups[q].Label() == dropped && d in groups[q].Domains()
                && groups[p].Label() == kept && d in groups[p].Domains();
    var q', p' := if q < k then q else q - 1, if p < k then p else p - 1;
    assert less[q'] == groups[q] && less[p'] == groups[p];
  }

  /** And the condition stays met without it. */
  lemma LessSettles(groups: seq<Group>, k: nat, m: nat)
    requires k < |groups| && m < |groups| && k != m && Settles(groups)
    requires groups[k].Label() == groups[m].Label() && OnlyNotes(groups, groups[k].Label())
    ensures Settles(Less(groups, k))
  {
    hide NonNotes, Contested, Group.Label, Group.Domains, Less, GivenUpFirst;
    var less := Less(groups, k);
    LessAt(groups, k);
    LessHas(groups, k);
    assert groups[k] in groups;
    NotesHaveNoDomains(groups[k]);
    forall g | g in less && Barren(less, g.Label()) ensures OnlyNotes(less, g.Label()) {
      forall h | h in groups && h.Label() == g.Label() ensures h.Domains() == [] {
        var i :| 0 <= i < |groups| && groups[i] == h;
      }
      assert Barren(groups, g.Label());
    }
    forall i, j, d | 0 <= i < |less| && 0 <= j < |less| && Contested(less[i], less[j], d)
      ensures GivenUpFirst(less, less[i].Label(), less[j].Label(), d)
    {
      var i', j' := if i < k then i else i + 1, if j < k then j else j + 1;
      assert less[i] == groups[i'] && less[j] == groups[j'];
      LessGivenUp(groups, k, less[i].Label(), less[j].Label(), d);
    }
  }

  lemma NotesHaveNoDomains(g: Group)
    requires NonNotes(g.lines) == []
    ensures g.Domains() == []
  {
    NoEntriesInNotes(g.lines);
  }

  // --- the second pass ---------------------------------------------------------------------------

  ghost predicate SecondPassChangesNothing(lines: seq<string>, groups: seq<Group>, wants: Features) {
    var once := Reconciled(lines, groups, wants);
    Reconciled(once, groups, wants) == once
  }

  lemma NextOfLabel(groups: seq<Group>, k: nat, j: nat) returns (n: nat)
    requires k < j < |groups| && groups[k].Label() == groups[j].Label()
    ensures k < n <= j && groups[n].Label() == groups[k].Label()
    ensures forall i :: k < i < n ==> groups[i].Label() != groups[k].Label()
  {
    hide Group.Label;
    n := k + 1;
    while groups[n].Label() != groups[k].Label()
      invariant k < n <= j
      invariant forall i :: k < i < n ==> groups[i].Label() != groups[k].Label()
      decreases j - n
    {
      n := n + 1;
    }
  }

  lemma {:induction false} PassTwice(lines: seq<string>, groups: seq<Group>, wants: Features)
    requires Settles(groups) && forall g <- groups :: WellFormed(g)
    ensures SecondPassChangesNothing(lines, groups, wants)
    decreases |groups|
  {
    hide WellFormed, Reconciled, Settles, Group.Label, NonNotes;
    var once := Reconciled(lines, groups, wants);
    if NotesOnce(groups) {
      PassSettles(lines, groups, wants);
      QuietPass(once, groups, wants);
    } else {
      var k, j :| 0 <= k < j < |groups| && groups[k].Label() == groups[j].Label() && OnlyNotes(groups, groups[k].Label());
      var n := NextOfLabel(groups, k, j);
      assert groups[k] in groups && groups[n] in groups;
      NotesAreLost(lines, groups, k, n, wants);
      NotesAreLost(once, groups, k, n, wants);
      LessSettles(groups, k, n);
      LessHas(groups, k);
      PassTwice(lines, Less(groups, k), wants);
    }
  }
}
