/** A group without an end in the list is left as it is. */
module AllowlistUnclosed {
  import opened Allowlist
  import opened AllowlistLines
  import opened AllowlistViews

  /** From a group's marker to the next marker, or to the end of the list. */
  ghost function RegionOf(lines: seq<string>, tag: string): seq<string> {
    var start := FindGroup(lines, tag).0;
    if start < 0 then [] else lines[start..start + 1 + FirstMarker(lines[start + 1..])]
  }

  lemma RegionIs(lines: seq<string>, tag: string, s: nat, stop: nat)
    requires s < stop <= |lines| && KindOf(lines[s]) == Open(tag)
    requires forall i :: 0 <= i < s ==> KindOf(lines[i]) != Open(tag)
    requires forall i :: s < i < stop ==> KindOf(lines[i]) == Other
    requires stop < |lines| ==> KindOf(lines[stop]) != Other
    ensures RegionOf(lines, tag) == lines[s..stop]
  {
    hide KindOf, FindGroup;
    FindGroupIs(lines, tag, s, stop);
    var rest := lines[s + 1..];
    assert forall i :: 0 <= i < |rest| ==> rest[i] == lines[s + 1 + i];
    var k := FirstMarker(rest);
    assert s + 1 + k == stop;
  }

  /** A list that has the same lines around a group has the same region there. */
  lemma RegionMoves(a: seq<string>, b: seq<string>, tag: string, s: nat, stop: nat, shift: int)
    requires s < stop <= |a| && 0 <= s + shift && stop + shift <= |b| && KindOf(a[s]) == Open(tag)
    requires forall i :: 0 <= i < s ==> KindOf(a[i]) != Open(tag)
    requires forall i :: s < i < stop ==> KindOf(a[i]) == Other
    requires stop < |a| ==> KindOf(a[stop]) != Other
    requires forall i :: 0 <= i < s + shift ==> KindOf(b[i]) != Open(tag)
    requires forall i :: s <= i < stop ==> b[i + shift] == a[i]
    requires stop < |a| ==> stop + shift < |b| && b[stop + shift] == a[stop]
    requires stop == |a| ==> stop + shift == |b|
    ensures RegionOf(b, tag) == RegionOf(a, tag)
  {
    hide KindOf, RegionOf;
    RegionIs(a, tag, s, stop);
    forall i | s + shift < i < stop + shift ensures KindOf(b[i]) == Other {
      assert b[i - shift + shift] == a[i - shift];
    }
    assert b[s + shift] == a[s];
    RegionIs(b, tag, s + shift, stop + shift);
    assert b[s + shift..stop + shift] == a[s..stop];
  }

  lemma SpliceKeepsRegion(lines: seq<string>, start: int, end: int, inside: seq<string>, tag: string, other: string)
    requires FindGroup(lines, tag) == (start, end) && start >= 0 && end >= 0 && other != tag
    requires FindGroup(lines, other).0 >= 0
    requires forall l <- inside :: KindOf(l) == Other
    ensures RegionOf(Spliced(lines, start, end, inside), other) == RegionOf(lines, other)
  {
    hide KindOf, FindGroup, Spliced, RegionOf;
    var s0, stop0 := GroupStart(lines, tag);
    var s, stop := GroupStart(lines, other);
    if s < start {
      RegionBefore(lines, start, end, inside, other, s, stop);
    } else {
      assert s > end;
      RegionAfter(lines, start, end, inside, other, s, stop);
    }
  }

  lemma RegionBefore(lines: seq<string>, start: int, end: int, inside: seq<string>, other: string, s: nat, stop: nat)
    requires s < stop <= start < end < |lines| && KindOf(lines[s]) == Open(other)
    requires forall i :: 0 <= i < s ==> KindOf(lines[i]) != Open(other)
    requires forall i :: s < i < stop ==> KindOf(lines[i]) == Other
    requires KindOf(lines[stop]) != Other
    ensures RegionOf(Spliced(lines, start, end, inside), other) == RegionOf(lines, other)
  {
    hide KindOf, FindGroup, Spliced, RegionOf;
    SplicedLines(lines, start, end, inside);
    RegionMoves(lines, Spliced(lines, start, end, inside), other, s, stop, 0);
  }

  lemma RegionAfter(lines: seq<string>, start: int, end: int, inside: seq<string>, other: string, s: nat, stop: nat)
    requires 0 <= start < end < s < stop <= |lines| && KindOf(lines[s]) == Open(other)
    requires forall i :: 0 <= i < s ==> KindOf(lines[i]) != Open(other)
    requires forall i :: s < i < stop ==> KindOf(lines[i]) == Other
    requires stop < |lines| ==> KindOf(lines[stop]) != Other
    requires forall l <- inside :: KindOf(l) == Other
    ensures RegionOf(Spliced(lines, start, end, inside), other) == RegionOf(lines, other)
  {
    hide KindOf, FindGroup, Spliced, RegionOf;
    var spliced := Spliced(lines, start, end, inside);
    var shift := |inside| - (end - start - 1);
    SplicedLines(lines, start, end, inside);
    forall i | 0 <= i < s + shift ensures KindOf(spliced[i]) != Open(other) {
      if i <= start {
        assert spliced[i] == lines[i];
      } else if i < end + shift {
        assert spliced[i] == inside[i - start - 1] && inside[i - start - 1] in inside;
      } else {
        assert spliced[i] == lines[i - shift];
      }
    }
    forall i | s <= i <= stop && i < |lines| ensures spliced[i + shift] == lines[i] {
      assert spliced[i + shift] == lines[i + shift - shift];
    }
    RegionMoves(lines, spliced, other, s, stop, shift);
  }

  /** What is appended starts with a blank, so the last region may gain that blank. */
  lemma AppendKeepsRegion(lines: seq<string>, more: seq<string>, tag: string)
    requires |more| >= 2 && more[0] == "" && KindOf("") == Other && KindOf(more[1]) != Other
    requires FindGroup(lines, tag).0 >= 0
    ensures RegionOf(lines, tag) <= RegionOf(lines + more, tag)
  {
    hide KindOf, FindGroup, RegionOf;
    var longer, n := lines + more, |lines|;
    assert forall i :: 0 <= i < n ==> longer[i] == lines[i];
    assert longer[n] == "" && longer[n + 1] == more[1];
    var s, stop := GroupStart(lines, tag);
    RegionIs(lines, tag, s, stop);
    if stop < n {
      RegionIs(longer, tag, s, stop);
      assert longer[s..stop] == lines[s..stop];
    } else {
      RegionIs(longer, tag, s, n + 1);
      assert longer[s..n + 1] == lines[s..n] + [""];
    }
  }

  lemma StepKeepsUnclosed(lines: seq<string>, g: Group, wants: Features, tag: string)
    requires WellFormed(g) && ViewOf(lines, tag) == Unbounded
    ensures ViewOf(Step(lines, g, wants), tag) == Unbounded
    ensures RegionOf(lines, tag) <= RegionOf(Step(lines, g, wants), tag)
  {
    hide KindOf, FindGroup, Adjust, Missing, DomainOf, IsNote, EntryDomains, RegionOf;
    StepViews(lines, g, wants, tag);
    var (start, end) := FindGroup(lines, g.Label());
    if start < 0 {
      MarkerIsOpen(g);
      BlankIsPlain();
      AppendKeepsRegion(lines, Appended(lines, g), tag);
    } else if end >= 0 {
      InsideIsPlain(lines, g.Label());
      var inside := lines[start + 1..end];
      AdjustIsPlain(inside, g, g.WantedBy(wants));
      SpliceKeepsRegion(lines, start, end, Adjust(inside, g, g.WantedBy(wants)), g.Label(), tag);
    }
  }

  /** A group whose end is missing keeps every line it has, in place, and is still found
      without an end: reconciling warns and never guesses where it stops. */
  lemma {:induction false} UnclosedIsUntouched(lines: seq<string>, groups: seq<Group>, wants: Features, tag: string)
    requires (forall g <- groups :: WellFormed(g)) && ViewOf(lines, tag) == Unbounded
    ensures ViewOf(Reconciled(lines, groups, wants), tag) == Unbounded
    ensures RegionOf(lines, tag) <= RegionOf(Reconciled(lines, groups, wants), tag)
  {
    hide Step, WellFormed, ViewOf, RegionOf;
    if groups != [] {
      var n := |groups| - 1;
      assert groups[n] in groups;
      UnclosedIsUntouched(lines, groups[..n], wants, tag);
      StepKeepsUnclosed(Reconciled(lines, groups[..n], wants), groups[n], wants, tag);
    }
  }
}
