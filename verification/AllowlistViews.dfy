/** What findGroup shows of each group of a list, and what a turn of reconcile does to it: its own
    group as the turn says, every other group as it was. */
module AllowlistViews {
  import opened Text
  import opened Allowlist
  import opened AllowlistLines
  import opened AllowlistDocs

  /** What findGroup sees of a group. */
  datatype View = Absent | Unbounded | Closed(inside: seq<string>)

  ghost function ViewOf(lines: seq<string>, tag: string): View {
    var (start, end) := FindGroup(lines, tag);
    if start < 0 then Absent else if end < 0 then Unbounded else Closed(lines[start + 1..end])
  }

  /** A group as SeedFor lets through: features named, no marker among its lines. */
  ghost predicate WellFormed(g: Group) {
    && g.features != [] && (forall f <- g.features :: IsWord(f))
    && forall l <- g.lines :: KindOf(l) == Other
  }

  ghost function NextView(v: View, held: seq<string>, g: Group, wants: Features): View {
    match v
    case Absent =>
      if g.WantedBy(wants) && EntryDomains(Missing(held, g.lines)) != []
      then Closed([AddedNote(g.features)] + Missing(held, g.lines)) else Absent
    case Unbounded => Unbounded
    case Closed(inside) => Closed(Adjust(inside, g, g.WantedBy(wants)))
  }

  ghost predicate Quiet(lines: seq<string>, g: Group, wants: Features) {
    NextView(ViewOf(lines, g.Label()), EntryDomains(lines), g, wants) == ViewOf(lines, g.Label())
  }

  // --- findGroup under edits ---------------------------------------------------------------------

  lemma GroupStart(lines: seq<string>, tag: string) returns (start: int, stop: int)
    ensures start == FindGroup(lines, tag).0
    ensures start < 0 ==> forall i :: 0 <= i < |lines| ==> KindOf(lines[i]) != Open(tag)
    ensures start >= 0 ==> start < stop <= |lines| && KindOf(lines[start]) == Open(tag)
    ensures start >= 0 ==> forall i :: 0 <= i < start ==> KindOf(lines[i]) != Open(tag)
    ensures start >= 0 ==> forall i :: start < i < stop ==> KindOf(lines[i]) == Other
    ensures start >= 0 && stop < |lines| ==> KindOf(lines[stop]) != Other
    ensures start >= 0 ==> FindGroup(lines, tag).1 == if stop < |lines| && KindOf(lines[stop]) == Close then stop else -1
  {
    hide KindOf;
    start, stop := FindGroup(lines, tag).0, 0;
    if start >= 0 {
      var rest := lines[start + 1..];
      stop := start + 1 + FirstMarker(rest);
      assert forall i :: 0 <= i < |rest| ==> rest[i] == lines[start + 1 + i];
    }
  }

  lemma NoGroup(lines: seq<string>, tag: string)
    requires forall i :: 0 <= i < |lines| ==> KindOf(lines[i]) != Open(tag)
    ensures FindGroup(lines, tag) == (-1, -1)
  {
    hide KindOf;
    var k := FirstOpen(lines, tag);
    assert k == |lines|;
  }

  function Spliced(lines: seq<string>, start: int, end: int, inside: seq<string>): seq<string>
    requires 0 <= start < end < |lines|
  {
    lines[..start + 1] + inside + lines[end..]
  }

  lemma SplicedLines(lines: seq<string>, start: int, end: int, inside: seq<string>)
    requires 0 <= start < end < |lines|
    ensures var s, shift := Spliced(lines, start, end, inside), |inside| - (end - start - 1);
            && |s| == |lines| + shift
            && (forall i :: 0 <= i <= start ==> s[i] == lines[i])
            && (forall i :: start < i < end + shift ==> s[i] == inside[i - start - 1])
            && (forall i :: end + shift <= i < |s| ==> s[i] == lines[i - shift])
  {
  }

  lemma SplicedMarkers(lines: seq<string>, start: int, end: int, inside: seq<string>)
    requires 0 <= start < end < |lines| && forall l <- inside :: KindOf(l) == Other
    ensures forall i :: start < i < start + 1 + |inside| ==> KindOf(Spliced(lines, start, end, inside)[i]) == Other
  {
    hide KindOf;
    var spliced := Spliced(lines, start, end, inside);
    forall i | start < i < start + 1 + |inside| ensures KindOf(spliced[i]) == Other {
      assert spliced[i] == inside[i - start - 1] && inside[i - start - 1] in inside;
    }
  }

  /** A group that was not there up to some line is still not there. */
  lemma SplicedOpens(lines: seq<string>, start: int, end: int, inside: seq<string>, tag: string, n: nat)
    requires 0 <= start < end <= n <= |lines| && end < |lines| && forall l <- inside :: KindOf(l) == Other
    requires forall i :: 0 <= i < n ==> KindOf(lines[i]) != Open(tag)
    ensures var shift := |inside| - (end - start - 1);
            forall i :: 0 <= i < n + shift ==> KindOf(Spliced(lines, start, end, inside)[i]) != Open(tag)
  {
    hide KindOf, Spliced;
    var spliced, shift := Spliced(lines, start, end, inside), |inside| - (end - start - 1);
    SplicedLines(lines, start, end, inside);
    SplicedMarkers(lines, start, end, inside);
    forall i | 0 <= i < n + shift ensures KindOf(spliced[i]) != Open(tag) {
      if i <= start {
        assert spliced[i] == lines[i];
      } else if i >= end + shift {
        assert spliced[i] == lines[i - shift];
      }
    }
  }

  /** Rewriting the inside of one group: that group shows the new inside. */
  lemma SpliceView(lines: seq<string>, start: int, end: int, inside: seq<string>, tag: string)
    requires FindGroup(lines, tag) == (start, end) && start >= 0 && end >= 0
    requires forall l <- inside :: KindOf(l) == Other
    ensures ViewOf(Spliced(lines, start, end, inside), tag) == Closed(inside)
  {
    hide KindOf, FindGroup, Spliced;
    var spliced := Spliced(lines, start, end, inside);
    var stop := start + 1 + |inside|;
    SplicedLines(lines, start, end, inside);
    var s0, stop0 := GroupStart(lines, tag);
    forall i | start < i < stop ensures KindOf(spliced[i]) == Other {
      assert inside[i - start - 1] in inside;
    }
    assert spliced[stop] == lines[end];
    FindGroupIs(spliced, tag, start, stop);
    assert spliced[start + 1..stop] == inside;
  }

  /** A group found in one list is found in another that has the same lines from its marker
      to the next one, no marker of that name before, and still no end where there was none. */
  lemma SameView(a: seq<string>, b: seq<string>, s: int, stop: int, shift: int, tag: string)
    requires 0 <= s < stop <= |a| && 0 <= s + shift && stop + shift <= |b|
    requires KindOf(a[s]) == Open(tag)
    requires forall i :: 0 <= i < s ==> KindOf(a[i]) != Open(tag)
    requires forall i :: s < i < stop ==> KindOf(a[i]) == Other
    requires forall i :: 0 <= i < s + shift ==> KindOf(b[i]) != Open(tag)
    requires forall i :: s <= i < stop ==> b[i + shift] == a[i]
    requires stop < |a| ==> stop + shift < |b| && b[stop + shift] == a[stop] && KindOf(a[stop]) != Other
    requires stop == |a| && stop + shift < |b| ==> KindOf(b[stop + shift]).Open?
    ensures ViewOf(b, tag) == ViewOf(a, tag)
  {
    hide KindOf, FindGroup;
    FindGroupIs(a, tag, s, stop);
    forall i | s + shift < i < stop + shift ensures KindOf(b[i]) == Other {
      assert b[i - shift + shift] == a[i - shift];
    }
    assert b[s + shift] == a[s];
    FindGroupIs(b, tag, s + shift, stop + shift);
    assert b[s + shift + 1..stop + shift] == a[s + 1..stop];
  }

  lemma ViewBefore(lines: seq<string>, start: int, end: int, inside: seq<string>, other: string, s: nat, stop: nat)
    requires s < stop <= start < end < |lines| && KindOf(lines[s]) == Open(other)
    requires forall i :: 0 <= i < s ==> KindOf(lines[i]) != Open(other)
    requires forall i :: s < i < stop ==> KindOf(lines[i]) == Other
    requires KindOf(lines[stop]) != Other
    ensures ViewOf(Spliced(lines, start, end, inside), other) == ViewOf(lines, other)
  {
    hide KindOf, FindGroup, Spliced, ViewOf;
    SplicedLines(lines, start, end, inside);
    SameView(lines, Spliced(lines, start, end, inside), s, stop, 0, other);
  }

  lemma ViewAfter(lines: seq<string>, start: int, end: int, inside: seq<string>, other: string, s: nat, stop: nat)
    requires 0 <= start < end < s < stop <= |lines| && KindOf(lines[s]) == Open(other)
    requires forall i :: 0 <= i < s ==> KindOf(lines[i]) != Open(other)
    requires forall i :: s < i < stop ==> KindOf(lines[i]) == Other
    requires stop < |lines| ==> KindOf(lines[stop]) != Other
    requires forall l <- inside :: KindOf(l) == Other
    ensures ViewOf(Spliced(lines, start, end, inside), other) == ViewOf(lines, other)
  {
    hide KindOf, FindGroup, Spliced, ViewOf;
    var spliced := Spliced(lines, start, end, inside);
    var shift := |inside| - (end - start - 1);
    SplicedLines(lines, start, end, inside);
    SplicedOpens(lines, start, end, inside, other, s);
    forall i | s <= i <= stop && i < |lines| ensures spliced[i + shift] == lines[i] {
      assert spliced[i + shift] == lines[i + shift - shift];
    }
    SameView(lines, spliced, s, stop, shift, other);
  }

  lemma StillAbsent(lines: seq<string>, start: int, end: int, inside: seq<string>, other: string)
    requires 0 <= start < end < |lines| && forall l <- inside :: KindOf(l) == Other
    requires forall i :: 0 <= i < |lines| ==> KindOf(lines[i]) != Open(other)
    ensures ViewOf(Spliced(lines, start, end, inside), other) == ViewOf(lines, other)
  {
    hide KindOf, FindGroup, Spliced, ViewOf;
    var spliced := Spliced(lines, start, end, inside);
    SplicedLines(lines, start, end, inside);
    SplicedOpens(lines, start, end, inside, other, |lines|);
    NoGroup(spliced, other);
    NoView(spliced, other);
    NoGroup(lines, other);
    NoView(lines, other);
  }

  /** And every other group shows what it did. */
  lemma SpliceOtherView(lines: seq<string>, start: int, end: int, inside: seq<string>, tag: string, other: string)
    requires FindGroup(lines, tag) == (start, end) && start >= 0 && end >= 0 && other != tag
    requires forall l <- inside :: KindOf(l) == Other
    ensures ViewOf(Spliced(lines, start, end, inside), other) == ViewOf(lines, other)
  {
    hide KindOf, FindGroup, Spliced, ViewOf;
    var s0, stop0 := GroupStart(lines, tag);
    var s, stop := GroupStart(lines, other);
    if s < 0 {
      StillAbsent(lines, start, end, inside, other);
    } else if s < start {
      ViewBefore(lines, start, end, inside, other, s, stop);
    } else {
      assert s > end;
      ViewAfter(lines, start, end, inside, other, s, stop);
    }
  }

  lemma NoView(lines: seq<string>, tag: string)
    requires FindGroup(lines, tag).0 < 0
    ensures ViewOf(lines, tag) == Absent
  {
  }

  /** Appending a whole group: it shows its own lines. */
  lemma AppendView(lines: seq<string>, open: string, inside: seq<string>, close: string, tag: string)
    requires FindGroup(lines, tag).0 < 0
    requires KindOf(open) == Open(tag) && KindOf(close) == Close && KindOf("") == Other
    requires forall l <- inside :: KindOf(l) == Other
    ensures ViewOf(lines + (["", open] + inside + [close]), tag) == Closed(inside)
  {
    hide KindOf, FindGroup;
    var longer := lines + (["", open] + inside + [close]);
    var n, last := |lines|, |lines| + 2 + |inside|;
    var s0, stop0 := GroupStart(lines, tag);
    assert forall i :: 0 <= i < n ==> longer[i] == lines[i];
    assert longer[n] == "" && longer[n + 1] == open && longer[last] == close;
    forall i | n + 1 < i < last ensures KindOf(longer[i]) == Other {
      assert longer[i] == inside[i - n - 2] && inside[i - n - 2] in inside;
    }
    FindGroupIs(longer, tag, n + 1, last);
    assert longer[n + 2..last] == inside;
  }

  /** And every other group what it did. */
  lemma AppendOtherView(lines: seq<string>, open: string, inside: seq<string>, close: string, tag: string, other: string)
    requires other != tag
    requires KindOf(open) == Open(tag) && KindOf(close) == Close && KindOf("") == Other
    requires forall l <- inside :: KindOf(l) == Other
    ensures ViewOf(lines + (["", open] + inside + [close]), other) == ViewOf(lines, other)
  {
    hide KindOf, FindGroup, ViewOf;
    var longer := lines + (["", open] + inside + [close]);
    var n, last := |lines|, |lines| + 2 + |inside|;
    assert forall i :: 0 <= i < n ==> longer[i] == lines[i];
    assert longer[n] == "" && longer[n + 1] == open && longer[last] == close && |longer| == last + 1;
    var s, stop := GroupStart(lines, other);
    if s < 0 {
      forall i | 0 <= i < |longer| ensures KindOf(longer[i]) != Open(other) {
        if n + 1 < i < last {
          assert longer[i] == inside[i - n - 2] && inside[i - n - 2] in inside;
        }
      }
      NoGroup(longer, other);
      NoView(longer, other);
      NoView(lines, other);
    } else if stop < n {
      SameView(lines, longer, s, stop, 0, other);
    } else {
      UnboundedView(lines, s, other);
      FindGroupIs(longer, other, s, n + 1);
      UnboundedView(longer, s, other);
    }
  }

  lemma UnboundedView(lines: seq<string>, s: int, tag: string)
    requires s >= 0 && FindGroup(lines, tag) == (s, -1)
    ensures ViewOf(lines, tag) == Unbounded
  {
  }

  lemma InsideIsPlain(lines: seq<string>, tag: string)
    ensures ViewOf(lines, tag).Closed? ==> forall l <- ViewOf(lines, tag).inside :: KindOf(l) == Other
  {
    hide KindOf, FindGroup;
    var start, stop := GroupStart(lines, tag);
  }

  lemma AdjustIsPlain(inside: seq<string>, g: Group, wanted: bool)
    requires WellFormed(g) && forall l <- inside :: KindOf(l) == Other
    ensures forall l <- Adjust(inside, g, wanted) :: KindOf(l) == Other
  {
    hide KindOf;
    NonNotesKeepEntries(inside);
    WithoutFacts(inside, g.Domains());
    WrittenNote(g.features);
    NoteIsPlain(OmittedNote(g.features));
  }

  // --- one turn ----------------------------------------------------------------------------------

  /** One turn, seen through the views. */
  lemma StepViews(lines: seq<string>, g: Group, wants: Features, other: string)
    requires WellFormed(g)
    ensures ViewOf(Step(lines, g, wants), g.Label()) == NextView(ViewOf(lines, g.Label()), EntryDomains(lines), g, wants)
    ensures other != g.Label() ==> ViewOf(Step(lines, g, wants), other) == ViewOf(lines, other)
  {
    hide KindOf, FindGroup, Adjust, Missing, DomainOf, IsNote, EntryDomains;
    var (start, end) := FindGroup(lines, g.Label());
    if start < 0 {
      var missing := Missing(EntryDomains(lines), g.lines);
      MissingFacts(EntryDomains(lines), g.lines);
      MarkerIsOpen(g);
      EndIsClose();
      BlankIsPlain();
      WrittenNote(g.features);
      NoteIsPlain(AddedNote(g.features));
      var open := "# " + REQUIRES + " " + g.Label();
      var inside := [AddedNote(g.features)] + missing;
      AppendView(lines, open, inside, "# " + END, g.Label());
      if other != g.Label() {
        AppendOtherView(lines, open, inside, "# " + END, g.Label(), other);
      }
      assert Appended(lines, g) == ["", open] + inside + ["# " + END];
    } else if end >= 0 {
      InsideIsPlain(lines, g.Label());
      var inside := lines[start + 1..end];
      AdjustIsPlain(inside, g, g.WantedBy(wants));
      SpliceView(lines, start, end, Adjust(inside, g, g.WantedBy(wants)), g.Label());
      if other != g.Label() {
        SpliceOtherView(lines, start, end, Adjust(inside, g, g.WantedBy(wants)), g.Label(), other);
      }
    }
  }

  lemma QuietIsFixed(lines: seq<string>, g: Group, wants: Features)
    ensures Quiet(lines, g, wants) <==> Step(lines, g, wants) == lines
  {
    hide KindOf, FindGroup, Adjust, Missing, EntryDomains;
    var (start, end) := FindGroup(lines, g.Label());
    if start >= 0 && end >= 0 {
      var inside := lines[start + 1..end];
      var adjusted := Adjust(inside, g, g.WantedBy(wants));
      var stepped := lines[..start + 1] + adjusted + lines[end..];
      assert lines == lines[..start + 1] + inside + lines[end..];
      if stepped == lines {
        assert |adjusted| == |inside|;
        assert adjusted == stepped[start + 1..start + 1 + |adjusted|];
      }
    }
  }

  // --- entries -----------------------------------------------------------------------------------

  lemma AdjustKeepsEntries(inside: seq<string>, g: Group, wanted: bool, d: string)
    requires d in EntryDomains(inside) && (wanted || d !in g.Domains())
    ensures d in EntryDomains(Adjust(inside, g, wanted))
  {
    hide DomainOf, IsNote, NonNotes, Without, Dropped, EntryDomains, OmittedNote;
    WithoutFacts(inside, g.Domains());
    EntriesAppend([OmittedNote(g.features)], Without(inside, g.Domains()));
  }

  lemma EntriesAround(before: seq<string>, inside: seq<string>, after: seq<string>)
    ensures EntryDomains(before + inside + after) == EntryDomains(before) + EntryDomains(inside) + EntryDomains(after)
  {
    hide EntryDomains;
    EntriesAppend(before + inside, after);
    EntriesAppend(before, inside);
  }

  /** A turn takes an entry away only as an unwanted group's own, from inside its block. */
  lemma StepKeepsEntries(lines: seq<string>, g: Group, wants: Features, d: string)
    requires d in EntryDomains(lines)
    requires g.WantedBy(wants) || d !in g.Domains()
             || (ViewOf(lines, g.Label()).Closed? ==> d !in EntryDomains(ViewOf(lines, g.Label()).inside))
    ensures d in EntryDomains(Step(lines, g, wants))
  {
    hide KindOf, FindGroup, EntryDomains, Adjust, Appended, Missing, Group.Domains, Group.WantedBy;
    var (start, end) := FindGroup(lines, g.Label());
    if start < 0 {
      EntriesAppend(lines, Appended(lines, g));
    } else if end >= 0 {
      var inside := lines[start + 1..end];
      assert lines == lines[..start + 1] + inside + lines[end..];
      EntriesAround(lines[..start + 1], inside, lines[end..]);
      EntriesAround(lines[..start + 1], Adjust(inside, g, g.WantedBy(wants)), lines[end..]);
      if d in EntryDomains(inside) {
        AdjustKeepsEntries(inside, g, g.WantedBy(wants), d);
      }
    }
  }

  // --- passes ------------------------------------------------------------------------------------

  lemma {:induction false} QuietPass(lines: seq<string>, groups: seq<Group>, wants: Features)
    requires forall g <- groups :: Quiet(lines, g, wants)
    ensures Reconciled(lines, groups, wants) == lines
  {
    hide Step, Quiet;
    if groups != [] {
      QuietPass(lines, groups[..|groups| - 1], wants);
      QuietIsFixed(lines, groups[|groups| - 1], wants);
    }
  }

  lemma {:induction false} QuietPrefix(lines: seq<string>, groups: seq<Group>, n: nat, wants: Features)
    requires n <= |groups| && forall k :: 0 <= k < n ==> Quiet(lines, groups[k], wants)
    ensures Reconciled(lines, groups[..n], wants) == lines
  {
    hide Quiet, Step;
    QuietPass(lines, groups[..n], wants);
  }

  lemma {:induction false} ReconciledInTwo(lines: seq<string>, groups: seq<Group>, n: nat, wants: Features)
    requires n <= |groups|
    ensures Reconciled(lines, groups, wants) == Reconciled(Reconciled(lines, groups[..n], wants), groups[n..], wants)
    decreases |groups| - n
  {
    hide Step;
    if n == |groups| {
      assert groups[..n] == groups;
    } else {
      var m := |groups| - 1;
      ReconciledInTwo(lines, groups[..m], n, wants);
      assert groups[..m][..n] == groups[..n] && groups[..m][n..] == groups[n..][..|groups[n..]| - 1];
    }
  }

  lemma {:induction false} ViewUntouched(lines: seq<string>, groups: seq<Group>, tag: string, wants: Features)
    requires forall g <- groups :: WellFormed(g) && g.Label() != tag
    ensures ViewOf(Reconciled(lines, groups, wants), tag) == ViewOf(lines, tag)
  {
    hide Step, WellFormed, ViewOf;
    if groups != [] {
      var n := |groups| - 1;
      assert groups[n] in groups;
      ViewUntouched(lines, groups[..n], tag, wants);
      StepViews(Reconciled(lines, groups[..n], wants), groups[n], wants, tag);
    }
  }

  lemma ViewInDoc(d: Doc, k: nat, tag: string)
    requires k < |d| && Shaped(d) && HasTag(d[k], tag)
    requires forall m :: 0 <= m < k ==> !HasTag(d[m], tag)
    ensures ViewOf(Flatten(d), tag) == Closed(d[k].inside)
  {
    hide KindOf, FindGroup, Flatten;
    assert d[k] in d;
    NoTagInside(d[..k], tag);
    FlattenAround(d, k);
    FindBetween(Flatten(d[..k]), d[k], Flatten(d[k + 1..]), tag);
  }
}
