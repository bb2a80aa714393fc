/** What reconciling may add to a list, what it may take away, and that everything else
    stays where it was: for every body and every set of groups. */
module AllowlistAccounting {
  import opened Text
  import opened Allowlist
  import opened AllowlistLines

  /** A line reconciling may remove: a generated note, or an entry the template grants
      only to a feature this VM does not have. */
  ghost predicate Removable(line: string, groups: seq<Group>, wants: Features) {
    || IsNote(line)
    || (DomainOf(line) != "" && exists g <- groups :: !g.WantedBy(wants) && DomainOf(line) in g.Domains())
  }

  /** A line reconciling may add: a line of the template's group for a wanted feature, or
      the blank, markers and notes written around one. */
  ghost predicate Addable(line: string, groups: seq<Group>, wants: Features) {
    || IsNote(line)
    || line == "" || line == "# " + END
    || exists g <- groups :: g.WantedBy(wants) && (line in g.lines || line == "# " + REQUIRES + " " + g.Label())
  }

  /** `after` is `before` with removable lines taken out and addable lines put in, the
      other lines in the same order. */
  ghost predicate Edited(before: seq<string>, after: seq<string>, groups: seq<Group>, wants: Features)
    decreases |before| + |after|
  {
    || (before == [] && after == [])
    || (before != [] && after != [] && before[0] == after[0] && Edited(before[1..], after[1..], groups, wants))
    || (before != [] && Removable(before[0], groups, wants) && Edited(before[1..], after, groups, wants))
    || (after != [] && Addable(after[0], groups, wants) && Edited(before, after[1..], groups, wants))
  }

  /** The lines that can be neither added nor removed. */
  ghost function Untouchable(lines: seq<string>, groups: seq<Group>, wants: Features): seq<string> {
    if lines == [] then []
    else
      (if Removable(lines[0], groups, wants) || Addable(lines[0], groups, wants) then [] else [lines[0]])
      + Untouchable(lines[1..], groups, wants)
  }

  /** The lines that reconciling may not remove, and those it may not have added. */
  ghost function Kept(lines: seq<string>, groups: seq<Group>, wants: Features): seq<string> {
    if lines == [] then []
    else (if Removable(lines[0], groups, wants) then [] else [lines[0]]) + Kept(lines[1..], groups, wants)
  }

  ghost function Found(lines: seq<string>, groups: seq<Group>, wants: Features): seq<string> {
    if lines == [] then []
    else (if Addable(lines[0], groups, wants) then [] else [lines[0]]) + Found(lines[1..], groups, wants)
  }

  lemma {:induction false} EditedSame(lines: seq<string>, groups: seq<Group>, wants: Features)
    ensures Edited(lines, lines, groups, wants)
  {
    hide Removable, Addable;
    if lines != [] {
      EditedSame(lines[1..], groups, wants);
    }
  }

  lemma {:induction false} EditedBoth(a: seq<string>, b: seq<string>, c: seq<string>, d: seq<string>,
                                      groups: seq<Group>, wants: Features)
    requires Edited(a, b, groups, wants) && Edited(c, d, groups, wants)
    ensures Edited(a + c, b + d, groups, wants)
    decreases |a| + |b|
  {
    hide Removable, Addable;
    if a == [] && b == [] {
      assert a + c == c && b + d == d;
    } else if a != [] && b != [] && a[0] == b[0] && Edited(a[1..], b[1..], groups, wants) {
      EditedBoth(a[1..], b[1..], c, d, groups, wants);
      assert (a + c)[1..] == a[1..] + c && (b + d)[1..] == b[1..] + d;
    } else if a != [] && Removable(a[0], groups, wants) && Edited(a[1..], b, groups, wants) {
      EditedBoth(a[1..], b, c, d, groups, wants);
      assert (a + c)[1..] == a[1..] + c;
    } else {
      EditedBoth(a, b[1..], c, d, groups, wants);
      assert (b + d)[1..] == b[1..] + d;
    }
  }

  lemma {:induction false} EditedTwice(a: seq<string>, b: seq<string>, c: seq<string>, groups: seq<Group>, wants: Features)
    requires Edited(a, b, groups, wants) && Edited(b, c, groups, wants)
    ensures Edited(a, c, groups, wants)
    decreases |a| + |b| + |c|
  {
    hide Removable, Addable;
    if a != [] && Removable(a[0], groups, wants) && Edited(a[1..], b, groups, wants) {
      EditedTwice(a[1..], b, c, groups, wants);
    } else if c != [] && Addable(c[0], groups, wants) && Edited(b, c[1..], groups, wants) {
      EditedTwice(a, b, c[1..], groups, wants);
    } else if b != [] {
      if a != [] && a[0] == b[0] && Edited(a[1..], b[1..], groups, wants) {
        if c != [] && b[0] == c[0] && Edited(b[1..], c[1..], groups, wants) {
          EditedTwice(a[1..], b[1..], c[1..], groups, wants);
        } else {
          EditedTwice(a[1..], b[1..], c, groups, wants);
        }
      } else {
        if c != [] && b[0] == c[0] && Edited(b[1..], c[1..], groups, wants) {
          EditedTwice(a, b[1..], c[1..], groups, wants);
        } else {
          EditedTwice(a, b[1..], c, groups, wants);
        }
      }
    }
  }

  lemma {:induction false} EditedAdding(lines: seq<string>, groups: seq<Group>, wants: Features)
    requires forall l <- lines :: Addable(l, groups, wants)
    ensures Edited([], lines, groups, wants)
  {
    hide Addable;
    if lines != [] {
      assert lines[0] in lines;
      EditedAdding(lines[1..], groups, wants);
    }
  }

  lemma {:induction false} EditedNonNotes(lines: seq<string>, groups: seq<Group>, wants: Features)
    ensures Edited(lines, NonNotes(lines), groups, wants)
  {
    hide IsNote;
    if lines != [] {
      EditedNonNotes(lines[1..], groups, wants);
      assert ([lines[0]] + NonNotes(lines[1..]))[1..] == NonNotes(lines[1..]);
      if IsNote(lines[0]) {
        assert NonNotes(lines) == NonNotes(lines[1..]);
      }
    }
  }

  lemma {:induction false} EditedWithout(lines: seq<string>, g: Group, groups: seq<Group>, wants: Features)
    requires g in groups && !g.WantedBy(wants)
    ensures Edited(lines, Without(lines, g.Domains()), groups, wants)
  {
    hide DomainOf, IsNote, EntryDomains;
    if lines != [] {
      EditedWithout(lines[1..], g, groups, wants);
      var rest := Without(lines[1..], g.Domains());
      assert ([lines[0]] + rest)[1..] == rest;
      if DomainOf(lines[0]) != "" && DomainOf(lines[0]) in g.Domains() {
        assert Without(lines, g.Domains()) == rest;
      }
    }
  }

  lemma AdjustEdits(inside: seq<string>, g: Group, groups: seq<Group>, wants: Features)
    requires g in groups
    ensures Edited(inside, Adjust(inside, g, g.WantedBy(wants)), groups, wants)
  {
    EditedSame(inside, groups, wants);
    if g.WantedBy(wants) {
      EditedNonNotes(inside, groups, wants);
      EditedAdding(g.lines, groups, wants);
      EditedBoth(inside, NonNotes(inside), [], g.lines, groups, wants);
      assert inside + [] == inside;
    } else {
      var kept := Without(inside, g.Domains());
      EditedWithout(inside, g, groups, wants);
      WrittenNote(g.features);
      EditedAdding([OmittedNote(g.features)], groups, wants);
      EditedBoth([], [OmittedNote(g.features)], inside, kept, groups, wants);
      assert [] + inside == inside;
    }
  }

  lemma StepEdits(lines: seq<string>, g: Group, groups: seq<Group>, wants: Features)
    requires g in groups
    ensures Edited(lines, Step(lines, g, wants), groups, wants)
  {
    hide FindGroup, Missing, Adjust;
    EditedSame(lines, groups, wants);
    var (start, end) := FindGroup(lines, g.Label());
    if start < 0 {
      if g.WantedBy(wants) {
        MissingFacts(EntryDomains(lines), g.lines);
        WrittenNote(g.features);
        EditedAdding(Appended(lines, g), groups, wants);
        EditedBoth(lines, lines, [], Appended(lines, g), groups, wants);
        assert lines + [] == lines;
      }
    } else if end >= 0 {
      var inside := lines[start + 1..end];
      AdjustEdits(inside, g, groups, wants);
      EditedSame(lines[..start + 1], groups, wants);
      EditedSame(lines[end..], groups, wants);
      var adjusted := Adjust(inside, g, g.WantedBy(wants));
      EditedBoth(lines[..start + 1], lines[..start + 1], inside, adjusted, groups, wants);
      EditedBoth(lines[..start + 1] + inside, lines[..start + 1] + adjusted, lines[end..], lines[end..], groups, wants);
      assert lines == lines[..start + 1] + inside + lines[end..];
    }
  }

  lemma {:induction false} ReconcileEdits(lines: seq<string>, done: seq<Group>, groups: seq<Group>, wants: Features)
    requires forall g <- done :: g in groups
    ensures Edited(lines, Reconciled(lines, done, wants), groups, wants)
  {
    hide Step;
    EditedSame(lines, groups, wants);
    if done != [] {
      var before := done[..|done| - 1];
      ReconcileEdits(lines, before, groups, wants);
      StepEdits(Reconciled(lines, before, wants), done[|done| - 1], groups, wants);
      EditedTwice(lines, Reconciled(lines, before, wants), Reconciled(lines, done, wants), groups, wants);
    }
  }

  lemma {:induction false} EditedMeans(before: seq<string>, after: seq<string>, groups: seq<Group>, wants: Features)
    requires Edited(before, after, groups, wants)
    ensures forall l <- after :: l in before || Addable(l, groups, wants)
    ensures forall l <- before :: l in after || Removable(l, groups, wants)
    ensures Untouchable(before, groups, wants) == Untouchable(after, groups, wants)
    decreases |before| + |after|
  {
    hide Removable, Addable, Subsequence;
    if before != [] && after != [] && before[0] == after[0] && Edited(before[1..], after[1..], groups, wants) {
      EditedMeans(before[1..], after[1..], groups, wants);
    } else if before != [] && Removable(before[0], groups, wants) && Edited(before[1..], after, groups, wants) {
      EditedMeans(before[1..], after, groups, wants);
      assert Untouchable(before, groups, wants) == Untouchable(before[1..], groups, wants);
    } else if after != [] {
      EditedMeans(before, after[1..], groups, wants);
      assert Untouchable(after, groups, wants) == Untouchable(after[1..], groups, wants);
    }
  }

  /** What may not be removed stays in order, and what may not be added was there in order. */
  lemma {:induction false} EditedInOrder(before: seq<string>, after: seq<string>, groups: seq<Group>, wants: Features)
    requires Edited(before, after, groups, wants)
    ensures Subsequence(Kept(before, groups, wants), after)
    ensures Subsequence(Found(after, groups, wants), before)
    decreases |before| + |after|
  {
    hide Removable, Addable, Subsequence;
    NothingIsSubsequence(before);
    NothingIsSubsequence(after);
    if before != [] && after != [] && before[0] == after[0] && Edited(before[1..], after[1..], groups, wants) {
      EditedInOrder(before[1..], after[1..], groups, wants);
      assert before == [before[0]] + before[1..] && after == [after[0]] + after[1..];
      SubsequenceLater(Kept(before[1..], groups, wants), after[0], after[1..]);
      SubsequenceLater(Found(after[1..], groups, wants), before[0], before[1..]);
      var kept, found := Kept(before[1..], groups, wants), Found(after[1..], groups, wants);
      assert Kept(before, groups, wants) == if Removable(before[0], groups, wants) then kept else [before[0]] + kept;
      assert Found(after, groups, wants) == if Addable(after[0], groups, wants) then found else [after[0]] + found;
    } else if before != [] && Removable(before[0], groups, wants) && Edited(before[1..], after, groups, wants) {
      EditedInOrder(before[1..], after, groups, wants);
      assert before == [before[0]] + before[1..];
      SubsequenceLater(Found(after, groups, wants), before[0], before[1..]);
      assert Kept(before, groups, wants) == Kept(before[1..], groups, wants);
    } else if after != [] {
      EditedInOrder(before, after[1..], groups, wants);
      assert after == [after[0]] + after[1..];
      SubsequenceLater(Kept(before, groups, wants), after[0], after[1..]);
      assert Found(after, groups, wants) == Found(after[1..], groups, wants);
    }
  }

  lemma NothingIsSubsequence(lines: seq<string>)
    ensures Subsequence([], lines)
  {
  }

  /** Accounting: every line gained is the template's for a wanted feature, every line lost
      is a note or the template's for an unwanted one, and the rest keeps its order. */
  lemma Accounting(lines: seq<string>, groups: seq<Group>, wants: Features)
    ensures var after := Reconciled(lines, groups, wants);
            && Edited(lines, after, groups, wants)
            && (forall l <- after :: l in lines || Addable(l, groups, wants))
            && (forall l <- lines :: l in after || Removable(l, groups, wants))
            && Subsequence(Kept(lines, groups, wants), after)
            && Subsequence(Found(after, groups, wants), lines)
            && Untouchable(lines, groups, wants) == Untouchable(after, groups, wants)
  {
    ReconcileEdits(lines, groups, groups, wants);
    EditedInOrder(lines, Reconciled(lines, groups, wants), groups, wants);
    EditedMeans(lines, Reconciled(lines, groups, wants), groups, wants);
  }

  /** The same for entries: a domain appears only through a wanted group of the template
      and disappears only through an unwanted one. */
  lemma EntriesAccounted(lines: seq<string>, groups: seq<Group>, wants: Features)
    requires forall g <- groups :: g.features != [] && forall f <- g.features :: IsWord(f)
    ensures var before, after := EntryDomains(lines), EntryDomains(Reconciled(lines, groups, wants));
            && (forall d <- after :: d in before || exists g <- groups :: g.WantedBy(wants) && d in g.Domains())
            && (forall d <- before :: d in after || exists g <- groups :: !g.WantedBy(wants) && d in g.Domains())
  {
    hide DomainOf, IsNote, Reconciled, EntryDomains;
    Accounting(lines, groups, wants);
    var after := Reconciled(lines, groups, wants);
    EntriesAreEntries(after);
    EntriesAreEntries(lines);
    forall d | d in EntryDomains(after)
      ensures d in EntryDomains(lines) || exists g <- groups :: g.WantedBy(wants) && d in g.Domains()
    {
      var l :| l in after && DomainOf(l) == d;
      if l in lines {
        EntryOfLine(lines, l);
      } else {
        AddableEntry(l, groups, wants);
      }
    }
    forall d | d in EntryDomains(lines)
      ensures d in EntryDomains(after) || exists g <- groups :: !g.WantedBy(wants) && d in g.Domains()
    {
      var l :| l in lines && DomainOf(l) == d;
      if l in after {
        EntryOfLine(after, l);
      } else if IsNote(l) {
        NoteIsPlain(l);
      }
    }
  }

  lemma AddableEntry(line: string, groups: seq<Group>, wants: Features)
    requires forall g <- groups :: g.features != [] && forall f <- g.features :: IsWord(f)
    requires Addable(line, groups, wants) && DomainOf(line) != ""
    ensures exists g <- groups :: g.WantedBy(wants) && DomainOf(line) in g.Domains()
  {
    hide DomainOf, IsNote, EntryDomains;
    if IsNote(line) {
      NoteIsPlain(line);
    }
    BlankIsPlain();
    EndIsClose();
    var g :| g in groups && g.WantedBy(wants) && (line in g.lines || line == "# " + REQUIRES + " " + g.Label());
    MarkerIsOpen(g);
    EntryOfLine(g.lines, line);
  }
}
