/** The lists on which a second pass does change something, for every template that does not
    settle. */
module AllowlistTraps {
  import opened Text
  import opened Allowlist
  import opened AllowlistLines
  import opened AllowlistDocs
  import opened AllowlistViews
  import opened AllowlistSettling

  // --- comments without entries ------------------------------------------------------------------

  lemma EmptyGroupView(g: Group)
    requires WellFormed(g)
    ensures ViewOf(["# " + REQUIRES + " " + g.Label(), "# " + END], g.Label()) == Closed([])
  {
    hide KindOf, FindGroup;
    var lines := ["# " + REQUIRES + " " + g.Label(), "# " + END];
    MarkerIsOpen(g);
    EndIsClose();
    FindGroupIs(lines, g.Label(), 0, 1);
  }

  /** Every turn of a wanted label without entries adds the group's lines to the block again. */
  lemma {:induction false} BarrenGrows(lines: seq<string>, groups: seq<Group>, n: nat, wants: Features, k: nat)
    requires n <= |groups| && k < |groups| && forall g <- groups :: WellFormed(g)
    requires groups[k].WantedBy(wants) && Barren(groups, groups[k].Label())
    requires var v := ViewOf(lines, groups[k].Label()); v.Closed? && EntryDomains(v.inside) == []
    ensures var was, now := ViewOf(lines, groups[k].Label()), ViewOf(After(lines, groups, n, wants), groups[k].Label());
            && now.Closed? && EntryDomains(now.inside) == []
            && |NonNotes(now.inside)| >= |NonNotes(was.inside)| + if k < n then |NonNotes(groups[k].lines)| else 0
  {
    hide WellFormed, ViewOf, EntryDomains, Adjust, Missing, NonNotes, Step;
    if n > 0 {
      var tag, m := groups[k].Label(), n - 1;
      BarrenGrows(lines, groups, m, wants, k);
      AfterViews(lines, groups, m, wants, tag);
      if groups[m].Label() == tag {
        assert groups[m] in groups && groups[k] in groups;
        SameFeatures(groups[m], groups[k]);
        AdjustGrows(ViewOf(After(lines, groups, m, wants), tag).inside, groups[m]);
      }
    }
  }

  lemma AdjustGrows(inside: seq<string>, g: Group)
    requires EntryDomains(inside) == [] && g.Domains() == []
    ensures var adjusted := Adjust(inside, g, true);
            EntryDomains(adjusted) == [] && |NonNotes(adjusted)| == |NonNotes(inside)| + |NonNotes(g.lines)|
  {
    hide DomainOf, IsNote, EntryDomains, NonNotes;
    AdjustFills(inside, g);
    NonNotesKeepEntries(inside);
    NonNotesAppend(NonNotes(inside), g.lines);
  }

  /** A label with comments and no entries gets its comments again on every pass. */
  lemma CommentsRepeat(groups: seq<Group>, k: nat)
    requires k < |groups| && forall g <- groups :: WellFormed(g)
    requires Barren(groups, groups[k].Label()) && NonNotes(groups[k].lines) != []
    ensures exists lines, wants :: !SecondPassChangesNothing(lines, groups, wants)
  {
    hide KindOf, FindGroup, DomainOf, IsNote, Reconciled, ViewOf, Group.Label, NonNotes, Barren;
    var g := groups[k];
    assert g in groups;
    var lines := ["# " + REQUIRES + " " + g.Label(), "# " + END];
    var wants := {g.features[0]};
    assert g.features[0] in g.features && g.WantedBy(wants);
    EmptyGroupView(g);
    BarrenGrows(lines, groups, |groups|, wants, k);
    var once := Reconciled(lines, groups, wants);
    assert groups[..|groups|] == groups;
    assert After(lines, groups, |groups|, wants) == once;
    BarrenGrows(once, groups, |groups|, wants, k);
    assert After(once, groups, |groups|, wants) == Reconciled(once, groups, wants);
    assert !SecondPassChangesNothing(lines, groups, wants);
  }

  // --- a shared domain ---------------------------------------------------------------------------

  // A domain shared with another label: not missing while that label's block still holds it,
  // taken out of that block after the last turn that asks for it, and so added on the second
  // pass.

  /** A word longer than every domain of every group. */
  ghost function Stranger(groups: seq<Group>): string {
    if groups == [] then "a" else Stranger(groups[..|groups| - 1]) + Join(groups[|groups| - 1].Domains(), "")
  }

  lemma {:induction false} JoinCovers(words: seq<string>)
    requires forall w <- words :: IsWord(w)
    ensures forall w <- words :: |w| <= |Join(words, "")|
    ensures forall c <- Join(words, "") :: !IsSpace(c)
  {
    if words != [] {
      assert words[0] in words;
      JoinCovers(words[1..]);
    }
  }

  lemma {:induction false} StrangerIsNew(groups: seq<Group>)
    ensures IsWord(Stranger(groups)) && Stranger(groups)[0] == 'a'
    ensures forall g <- groups :: Stranger(groups) !in g.Domains()
    ensures forall g <- groups :: forall d <- g.Domains() :: |d| < |Stranger(groups)|
  {
    hide DomainOf, EntryDomains, IsWord;
    if groups == [] {
      PartsWord("a");
    } else {
      var n := |groups| - 1;
      StrangerIsNew(groups[..n]);
      var g := groups[n];
      WordParts(Stranger(groups[..n]));
      assert Stranger(groups) == Stranger(groups[..n]) + Join(g.Domains(), "");
      DomainsAreWords(g);
      JoinCovers(g.Domains());
      assert IsWord(Stranger(groups)) by {
        assert forall c <- Stranger(groups) :: c in Stranger(groups[..n]) || c in Join(g.Domains(), "");
        PartsWord(Stranger(groups));
      }
      forall h | h in groups ensures forall d <- h.Domains() :: |d| < |Stranger(groups)| {
        if h != g {
          var k :| 0 <= k < |groups| && groups[k] == h;
          assert groups[..n][k] == h;
        }
      }
    }
  }

  lemma WordParts(w: string)
    requires IsWord(w)
    ensures w != "" && forall c <- w :: !IsSpace(c)
  {
  }

  lemma PartsWord(w: string)
    requires w != "" && forall c <- w :: !IsSpace(c)
    ensures IsWord(w)
  {
  }

  lemma DomainsAreWords(g: Group)
    ensures forall d <- g.Domains() :: IsWord(d) && DomainOf(d) == d && d != ""
  {
    hide DomainOf, EntryDomains, IsWord;
    EntriesAreEntries(g.lines);
    forall d | d in g.Domains() ensures IsWord(d) && DomainOf(d) == d && d != "" {
      var l :| l in g.lines && DomainOf(l) == d;
      DomainIsItsOwnLine(l);
    }
  }

  ghost function Except(ds: seq<string>, d: string): Doc {
    if ds == [] then [] else (if ds[0] == d then [] else [Plain(ds[0])]) + Except(ds[1..], d)
  }

  lemma {:induction false} ExceptHolds(ds: seq<string>, d: string)
    ensures forall s <- Except(ds, d) :: s.Plain? && s.line in ds && s.line != d
    ensures forall e <- ds :: e == d || Plain(e) in Except(ds, d)
  {
    if ds != [] {
      ExceptHolds(ds[1..], d);
    }
  }

  /** The domains of a label, over all its groups. */
  ghost function DomainsOf(groups: seq<Group>, tag: string): seq<string> {
    if groups == [] then []
    else
      var n := |groups| - 1;
      DomainsOf(groups[..n], tag) + if groups[n].Label() == tag then groups[n].Domains() else []
  }

  lemma {:induction false} DomainsOfLabel(groups: seq<Group>, tag: string)
    ensures forall g <- groups :: g.Label() == tag ==> forall d <- g.Domains() :: d in DomainsOf(groups, tag)
    ensures forall d <- DomainsOf(groups, tag) :: IsWord(d) && DomainOf(d) == d && d != ""
  {
    hide DomainOf, EntryDomains, IsWord, Group.Label;
    if groups != [] {
      var n := |groups| - 1;
      DomainsOfLabel(groups[..n], tag);
      DomainsAreWords(groups[n]);
      forall g | g in groups && g.Label() == tag ensures forall d <- g.Domains() :: d in DomainsOf(groups, tag) {
        if g != groups[n] {
          var k :| 0 <= k < |groups| && groups[k] == g;
          assert groups[..n][k] == g;
        }
      }
    }
  }

  ghost predicate FirstOfLabel(groups: seq<Group>, k: int)
    requires 0 <= k < |groups|
  {
    forall m :: 0 <= m < k ==> groups[m].Label() != groups[k].Label()
  }

  /** A list with a block for every label but `kept`, each holding one foreign entry, that
      of `dropped` also `inside`, and the other domains of `kept` unmarked at the top. */
  ghost function Trap(groups: seq<Group>, kept: string, dropped: string, d: string, inside: seq<string>): Doc {
    Except(DomainsOf(groups, kept), d) + seq(|groups|, k requires 0 <= k < |groups| => TrapBlock(groups, kept, dropped, inside, k))
  }

  ghost function TrapBlock(groups: seq<Group>, kept: string, dropped: string, inside: seq<string>, k: nat): Seg
    requires k < |groups|
  {
    var tag := groups[k].Label();
    if tag == kept || !FirstOfLabel(groups, k) then Plain("")
    else Block("# " + REQUIRES + " " + tag, (if tag == dropped then inside else []) + [Stranger(groups)], "# " + END)
  }

  lemma TrapSeg(groups: seq<Group>, kept: string, dropped: string, d: string, inside: seq<string>, m: nat)
    requires d != "" && m < |Trap(groups, kept, dropped, d, inside)| && forall g <- groups :: WellFormed(g)
    requires forall l <- inside :: KindOf(l) == Other
    ensures var s, k := Trap(groups, kept, dropped, d, inside)[m], m - |Except(DomainsOf(groups, kept), d)|;
            && s.Shaped() && k < |groups|
            && (k < 0 || groups[k].Label() == kept || !FirstOfLabel(groups, k) ==>
                  s.Plain? && DomainOf(s.line) != d)
            && (k >= 0 && groups[k].Label() != kept && FirstOfLabel(groups, k) ==>
                  && HasTag(s, groups[k].Label()) && DomainOf(s.open) == "" && DomainOf(s.close) == ""
                  && s.inside == (if groups[k].Label() == dropped then inside else []) + [Stranger(groups)])
  {
    hide KindOf, DomainOf, EntryDomains, WellFormed, IsWord, Stranger, DomainsOf, Except, Group.Label, FirstOfLabel;
    var p := Except(DomainsOf(groups, kept), d);
    if m < |p| {
      ExceptHolds(DomainsOf(groups, kept), d);
      DomainsOfLabel(groups, kept);
      assert p[m] in p;
      EntryIsPlain(p[m].line);
    } else {
      BlankIsPlain();
      EndIsClose();
      StrangerIsEntry(groups);
      EntryIsPlain(Stranger(groups));
      assert groups[m - |p|] in groups;
      WellFormedMarker(groups[m - |p|]);
    }
  }

  lemma TrapShaped(groups: seq<Group>, kept: string, dropped: string, d: string, inside: seq<string>)
    requires d != "" && (forall g <- groups :: WellFormed(g)) && forall l <- inside :: KindOf(l) == Other
    ensures Shaped(Trap(groups, kept, dropped, d, inside))
  {
    hide KindOf, DomainOf, EntryDomains, WellFormed, IsWord, Stranger, Trap, FirstOfLabel;
    var t := Trap(groups, kept, dropped, d, inside);
    forall s | s in t ensures s.Shaped() {
      var m :| 0 <= m < |t| && t[m] == s;
      TrapSeg(groups, kept, dropped, d, inside, m);
    }
  }

  lemma FirstIndex(groups: seq<Group>, k: nat) returns (f: nat)
    requires k < |groups|
    ensures f <= k && groups[f].Label() == groups[k].Label() && FirstOfLabel(groups, f)
  {
    f := 0;
    while groups[f].Label() != groups[k].Label()
      invariant f <= k
      invariant forall m :: 0 <= m < f ==> groups[m].Label() != groups[k].Label()
      decreases k - f
    {
      f := f + 1;
    }
  }

  /** Where the block of a label is. */
  lemma TrapAt(groups: seq<Group>, kept: string, dropped: string, d: string, inside: seq<string>, k: nat)
    requires d != "" && k < |groups| && (forall g <- groups :: WellFormed(g)) && forall l <- inside :: KindOf(l) == Other
    requires FirstOfLabel(groups, k)
    ensures var t, at := Trap(groups, kept, dropped, d, inside), |Except(DomainsOf(groups, kept), d)| + k;
            && at < |t| && Shaped(t)
            && (groups[k].Label() != kept ==>
                  && HasTag(t[at], groups[k].Label())
                  && t[at].inside == (if groups[k].Label() == dropped then inside else []) + [Stranger(groups)])
            && forall m :: 0 <= m < |t| && (m != at || groups[k].Label() == kept) ==> !HasTag(t[m], groups[k].Label())
  {
    hide KindOf, DomainOf, EntryDomains, WellFormed, IsWord, Stranger;
    var t, n := Trap(groups, kept, dropped, d, inside), |Except(DomainsOf(groups, kept), d)|;
    assert |t| == n + |groups|;
    TrapShaped(groups, kept, dropped, d, inside);
    hide Trap;
    forall m | 0 <= m < |t| && (m != n + k || groups[k].Label() == kept) ensures !HasTag(t[m], groups[k].Label()) {
      TrapSeg(groups, kept, dropped, d, inside, m);
      if m - n >= 0 && groups[m - n].Label() == groups[k].Label() && FirstOfLabel(groups, m - n) {
        assert m - n == k;
      }
    }
    TrapSeg(groups, kept, dropped, d, inside, n + k);
  }

  lemma TrapView(groups: seq<Group>, kept: string, dropped: string, d: string, inside: seq<string>, k: nat)
    requires d != "" && k < |groups| && (forall g <- groups :: WellFormed(g)) && forall l <- inside :: KindOf(l) == Other
    ensures var v := ViewOf(Flatten(Trap(groups, kept, dropped, d, inside)), groups[k].Label());
            v == if groups[k].Label() == kept then Absent
                 else Closed((if groups[k].Label() == dropped then inside else []) + [Stranger(groups)])
  {
    hide KindOf, FindGroup, Flatten, Trap, WellFormed, DomainOf, EntryDomains, Stranger, ViewOf, Except, DomainsOf, Group.Label,
         FirstOfLabel, Shaped, IsWord;
    var f := FirstIndex(groups, k);
    var t, at := Trap(groups, kept, dropped, d, inside), |Except(DomainsOf(groups, kept), d)| + f;
    TrapAt(groups, kept, dropped, d, inside, f);
    if groups[k].Label() == kept {
      assert forall s <- t :: !HasTag(s, kept);
      FindAbsent(t, kept);
      NoView(Flatten(t), kept);
    } else {
      ViewInDoc(t, at, groups[k].Label());
    }
  }

  lemma WellFormedMarker(g: Group)
    requires WellFormed(g)
    ensures KindOf("# " + REQUIRES + " " + g.Label()) == Open(g.Label())
    ensures DomainOf("# " + REQUIRES + " " + g.Label()) == ""
  {
    MarkerIsOpen(g);
  }

  lemma StrangerIsEntry(groups: seq<Group>)
    ensures DomainOf(Stranger(groups)) == Stranger(groups) != ""
  {
    hide DomainOf;
    StrangerIsNew(groups);
    WordAsLine(Stranger(groups));
  }

  lemma {:induction false} LineInDoc(d: Doc, k: nat, line: string)
    requires k < |d| && line in d[k].Lines()
    ensures line in Flatten(d)
  {
    FlattenAround(d, k);
  }

  lemma {:induction false} LineFromDoc(d: Doc, line: string) returns (k: nat)
    requires line in Flatten(d)
    ensures k < |d| && line in d[k].Lines()
  {
    hide Seg.Lines;
    if line in d[0].Lines() {
      k := 0;
    } else {
      k := LineFromDoc(d[1..], line);
      k := k + 1;
    }
  }

  lemma StrangerStays(groups: seq<Group>, g: Group, wanted: bool, inside: seq<string>)
    requires g in groups && (inside == [] || (|inside| == 1 && DomainOf(inside[0]) == inside[0] && inside[0] !in g.Domains()))
    ensures Adjust(inside + [Stranger(groups)], g, wanted) == inside + [Stranger(groups)]
  {
    hide DomainOf, IsNote, Stranger;
    StrangerIsNew(groups);
    StrangerIsEntry(groups);
    var lines := [Stranger(groups)];
    var all := inside + lines;
    assert lines[1..] == [] && EntryDomains(lines) == lines;
    assert Dropped(lines, g.Domains()) == [];
    if inside == [] {
      assert all == lines;
    } else {
      assert all[1..] == lines && all[0] == inside[0];
      assert EntryDomains(all) != [];
    }
  }

  lemma SharedIsTakenOut(groups: seq<Group>, g: Group, d: string)
    requires g in groups && d in g.Domains()
    ensures Adjust([d] + [Stranger(groups)], g, false) == [Stranger(groups)]
  {
    hide DomainOf, IsNote, Stranger;
    StrangerIsNew(groups);
    StrangerIsEntry(groups);
    DomainsAreWords(g);
    var lines := [d] + [Stranger(groups)];
    assert lines[1..] == [Stranger(groups)];
    assert Without([Stranger(groups)], g.Domains()) == [Stranger(groups)];
    assert Without(lines, g.Domains()) == [Stranger(groups)];
    assert Dropped(lines, g.Domains())[0] == d;
    assert EntryDomains([Stranger(groups)]) == [Stranger(groups)];
  }

  /** On the trap a group has nothing to do, unless it asks for the domain when it is gone
      or gives it up while it is there. */
  lemma TrapQuiet(groups: seq<Group>, kept: string, dropped: string, d: string, inside: seq<string>, k: nat, wants: Features)
    requires k < |groups| && (forall g <- groups :: WellFormed(g)) && kept != dropped
    requires d != "" && DomainOf(d) == d && exists g <- groups :: g.Label() == dropped
    requires inside == [d] || inside == []
    requires d in groups[k].Domains() ==> inside == if groups[k].Label() == kept then [d] else if groups[k].Label() == dropped then [] else inside
    ensures Quiet(Flatten(Trap(groups, kept, dropped, d, inside)), groups[k], wants)
  {
    hide KindOf, FindGroup, Flatten, Trap, WellFormed, DomainOf, EntryDomains, Stranger, ViewOf, Adjust, Missing;
    EntryIsPlain(d);
    var g, lines := groups[k], Flatten(Trap(groups, kept, dropped, d, inside));
    assert g in groups;
    TrapView(groups, kept, dropped, d, inside, k);
    if g.Label() == kept {
      var h :| h in groups && h.Label() == dropped;
      var j :| 0 <= j < |groups| && groups[j] == h;
      DomainsOfLabel(groups, kept);
      forall e | e in g.Domains() ensures e in EntryDomains(lines) {
        if e == d {
          TrapHoldsShared(groups, kept, j, d);
        } else {
          TrapHolds(groups, kept, dropped, d, inside, e);
        }
      }
      NothingMissing(EntryDomains(lines), g.lines);
    } else {
      StrangerStays(groups, g, g.WantedBy(wants), if g.Label() == dropped then inside else []);
    }
  }

  /** The trap holds every domain of `kept` but the shared one at its top, */
  lemma TrapHolds(groups: seq<Group>, kept: string, dropped: string, d: string, inside: seq<string>, e: string)
    requires e != d && e in DomainsOf(groups, kept)
    ensures e in EntryDomains(Flatten(Trap(groups, kept, dropped, d, inside)))
  {
    hide KindOf, Flatten, DomainOf, EntryDomains, TrapBlock, DomainsOf, IsWord, Group.Label;
    var t, p := Trap(groups, kept, dropped, d, inside), Except(DomainsOf(groups, kept), d);
    DomainsOfLabel(groups, kept);
    ExceptHolds(DomainsOf(groups, kept), d);
    var m :| 0 <= m < |p| && p[m] == Plain(e);
    assert t[m] == p[m];
    LineInDoc(t, m, e);
    EntryOfLine(Flatten(t), e);
  }

  /** and the shared one inside the block of `dropped`, if it is there. */
  lemma TrapHoldsShared(groups: seq<Group>, kept: string, j: nat, d: string)
    requires j < |groups| && (forall g <- groups :: WellFormed(g)) && groups[j].Label() != kept
    requires d != "" && DomainOf(d) == d
    ensures d in EntryDomains(Flatten(Trap(groups, kept, groups[j].Label(), d, [d])))
  {
    hide KindOf, Flatten, WellFormed, DomainOf, EntryDomains, Stranger, FirstOfLabel, Trap, Group.Label;
    EntryIsPlain(d);
    var dropped := groups[j].Label();
    var t, p := Trap(groups, kept, dropped, d, [d]), Except(DomainsOf(groups, kept), d);
    var f := FirstIndex(groups, j);
    TrapAt(groups, kept, dropped, d, [d], f);
    assert d in t[|p| + f].inside;
    LineInDoc(t, |p| + f, d);
    EntryOfLine(Flatten(t), d);
  }

  /** And does not hold the shared one otherwise. */
  lemma TrapLacks(groups: seq<Group>, kept: string, dropped: string, d: string)
    requires (forall g <- groups :: WellFormed(g)) && d != "" && exists g <- groups :: d in g.Domains()
    ensures d !in EntryDomains(Flatten(Trap(groups, kept, dropped, d, [])))
  {
    hide KindOf, Flatten, WellFormed, DomainOf, EntryDomains, Stranger, Trap, FirstOfLabel;
    var t := Trap(groups, kept, dropped, d, []);
    StrangerIsNew(groups);
    StrangerIsEntry(groups);
    forall l | l in Flatten(t) ensures DomainOf(l) != d {
      var m := LineFromDoc(t, l);
      TrapSeg(groups, kept, dropped, d, [], m);
      assert l in t[m].Lines();
    }
    EntriesAreEntries(Flatten(t));
  }

  /** The turn that gives the shared domain up. */
  lemma TrapTurn(groups: seq<Group>, kept: string, j: nat, d: string, wants: Features)
    requires j < |groups| && (forall g <- groups :: WellFormed(g)) && groups[j].Label() != kept
    requires d in groups[j].Domains() && !groups[j].WantedBy(wants)
    ensures var dropped := groups[j].Label();
            Step(Flatten(Trap(groups, kept, dropped, d, [d])), groups[j], wants) == Flatten(Trap(groups, kept, dropped, d, []))
  {
    hide KindOf, FindGroup, Flatten, WellFormed, DomainOf, EntryDomains, Adjust, Missing, Stranger, Step, DomainsOf, FirstOfLabel;
    var dropped := groups[j].Label();
    DomainsAreWords(groups[j]);
    EntryIsPlain(d);
    var f := FirstIndex(groups, j);
    var t, at := Trap(groups, kept, dropped, d, [d]), |Except(DomainsOf(groups, kept), d)| + f;
    TrapAt(groups, kept, dropped, d, [d], f);
    StepInDoc(t, at, groups[j], wants);
    SharedIsTakenOut(groups, groups[j], d);
    var bare := Trap(groups, kept, dropped, d, []);
    assert [] + [Stranger(groups)] == [Stranger(groups)];
    assert t[at := t[at].(inside := [Stranger(groups)])] == bare by {
      forall m | 0 <= m < |bare| && m != at ensures t[m] == bare[m] {
        TrapElsewhere(groups, kept, dropped, d, f, m);
      }
    }
  }

  lemma TrapElsewhere(groups: seq<Group>, kept: string, dropped: string, d: string, f: nat, m: nat)
    requires f < |groups| && FirstOfLabel(groups, f) && groups[f].Label() == dropped
    requires m < |Trap(groups, kept, dropped, d, [])| && m != |Except(DomainsOf(groups, kept), d)| + f
    ensures |Trap(groups, kept, dropped, d, [d])| == |Trap(groups, kept, dropped, d, [])|
    ensures Trap(groups, kept, dropped, d, [d])[m] == Trap(groups, kept, dropped, d, [])[m]
  {
    hide Stranger, DomainsOf, Except;
    var k := m - |Except(DomainsOf(groups, kept), d)|;
    if k >= 0 && groups[k].Label() == dropped && FirstOfLabel(groups, k) {
      assert false;
    }
  }

  lemma FirstHolder(groups: seq<Group>, k: nat, d: string) returns (f: nat)
    requires k < |groups| && d in groups[k].Domains()
    ensures f <= k && groups[f].Label() == groups[k].Label() && d in groups[f].Domains()
    ensures forall m :: 0 <= m < f && groups[m].Label() == groups[k].Label() ==> d !in groups[m].Domains()
  {
    hide EntryDomains;
    f := 0;
    while groups[f].Label() != groups[k].Label() || d !in groups[f].Domains()
      invariant f <= k
      invariant forall m :: 0 <= m < f && groups[m].Label() == groups[k].Label() ==> d !in groups[m].Domains()
      decreases k - f
    {
      f := f + 1;
    }
  }

  /** The input on which a shared domain comes back: the first pass takes it out of the block
      of the unwanted label, after the last turn that could have missed it; the second adds
      the wanted label, now that it is missing. */
  lemma SharedDomainReturns(groups: seq<Group>, i: nat, j: nat, d: string)
    requires i < |groups| && j < |groups| && forall g <- groups :: WellFormed(g)
    requires Contested(groups[i], groups[j], d)
    requires !GivenUpFirst(groups, groups[i].Label(), groups[j].Label(), d)
    ensures exists lines, wants :: !SecondPassChangesNothing(lines, groups, wants)
  {
    hide KindOf, FindGroup, Flatten, Trap, WellFormed, DomainOf, EntryDomains, Step, Reconciled, Quiet, Contested, GivenUpFirst;
    var kept, dropped := groups[i].Label(), groups[j].Label();
    var wants := Wanting(groups, i, j, d);
    assert groups[i] in groups && groups[j] in groups;
    var full, bare := Flatten(Trap(groups, kept, dropped, d, [d])), Flatten(Trap(groups, kept, dropped, d, []));
    TrapFirstPass(groups, i, j, d, wants);
    TrapSecondPass(groups, i, j, d, wants);
    assert !SecondPassChangesNothing(full, groups, wants);
  }

  /** A configuration that wants the one group and not the other. */
  lemma Wanting(groups: seq<Group>, i: nat, j: nat, d: string) returns (wants: Features)
    requires i < |groups| && j < |groups| && Contested(groups[i], groups[j], d)
    ensures groups[i].WantedBy(wants) && !groups[j].WantedBy(wants)
    ensures d in groups[i].Domains() && d in groups[j].Domains() && d != "" && DomainOf(d) == d
    ensures groups[i].Label() != groups[j].Label() || !(WellFormed(groups[i]) && WellFormed(groups[j]))
  {
    hide DomainOf, EntryDomains, KindOf;
    var f :| f in groups[i].features && f !in groups[j].features;
    wants := {f};
    DomainsAreWords(groups[i]);
    if WellFormed(groups[i]) && WellFormed(groups[j]) && groups[i].Label() == groups[j].Label() {
      SameFeatures(groups[i], groups[j]);
    }
  }

  lemma TrapFirstPass(groups: seq<Group>, i: nat, j: nat, d: string, wants: Features)
    requires i < |groups| && j < |groups| && (forall g <- groups :: WellFormed(g)) && groups[i].Label() != groups[j].Label()
    requires d in groups[i].Domains() && d in groups[j].Domains() && !groups[j].WantedBy(wants)
    requires !GivenUpFirst(groups, groups[i].Label(), groups[j].Label(), d)
    ensures var kept, dropped := groups[i].Label(), groups[j].Label();
            Reconciled(Flatten(Trap(groups, kept, dropped, d, [d])), groups, wants) == Flatten(Trap(groups, kept, dropped, d, []))
  {
    hide KindOf, FindGroup, Flatten, Trap, WellFormed, DomainOf, EntryDomains, Step, Adjust, Missing, Stranger, Quiet, Reconciled;
    var kept, dropped := groups[i].Label(), groups[j].Label();
    var full, bare := Flatten(Trap(groups, kept, dropped, d, [d])), Flatten(Trap(groups, kept, dropped, d, []));
    assert groups[j] in groups;
    DomainsAreWords(groups[j]);
    var f := FirstHolder(groups, j, d);
    assert groups[f] in groups;
    SameFeatures(groups[f], groups[j]);
    forall k | 0 <= k < f ensures Quiet(full, groups[k], wants) {
      TrapQuiet(groups, kept, dropped, d, [d], k, wants);
    }
    QuietPrefix(full, groups, f, wants);
    TrapTurn(groups, kept, f, d, wants);
    TurnAt(full, groups, f, wants);
    forall g | g in groups[f + 1..] ensures Quiet(bare, g, wants) {
      var k :| f + 1 <= k < |groups| && groups[k] == g;
      assert g.Label() == kept ==> d !in g.Domains();
      TrapQuiet(groups, kept, dropped, d, [], k, wants);
    }
    QuietPass(bare, groups[f + 1..], wants);
  }

  /** A pass whose first `n` turns change nothing is the turn of the next group, then the rest. */
  lemma TurnAt(lines: seq<string>, groups: seq<Group>, n: nat, wants: Features)
    requires n < |groups| && Reconciled(lines, groups[..n], wants) == lines
    ensures Reconciled(lines, groups, wants) == Reconciled(Step(lines, groups[n], wants), groups[n + 1..], wants)
  {
    hide Step;
    assert groups[..n + 1][..n] == groups[..n] && groups[..n + 1][n] == groups[n];
    ReconciledInTwo(lines, groups, n + 1, wants);
  }

  /** Once the domain is gone, the label that asks for it is added after all. */
  lemma TrapSecondPass(groups: seq<Group>, i: nat, j: nat, d: string, wants: Features)
    requires i < |groups| && j < |groups| && (forall g <- groups :: WellFormed(g)) && groups[i].Label() != groups[j].Label()
    requires d in groups[i].Domains() && groups[i].WantedBy(wants)
    ensures var bare := Flatten(Trap(groups, groups[i].Label(), groups[j].Label(), d, []));
            Reconciled(bare, groups, wants) != bare
  {
    hide KindOf, FindGroup, Flatten, Trap, WellFormed, DomainOf, EntryDomains, Step, Adjust, Missing, Stranger, Quiet, Reconciled, ViewOf;
    var kept, dropped := groups[i].Label(), groups[j].Label();
    var bare := Flatten(Trap(groups, kept, dropped, d, []));
    assert groups[i] in groups && groups[j] in groups;
    DomainsAreWords(groups[i]);
    var f := FirstHolder(groups, i, d);
    assert groups[f] in groups;
    SameFeatures(groups[f], groups[i]);
    forall k | 0 <= k < f && groups[k].Label() == kept ensures Quiet(bare, groups[k], wants) {
      TrapQuiet(groups, kept, dropped, d, [], k, wants);
    }
    forall k | 0 <= k < f && groups[k].Label() != kept ensures Quiet(bare, groups[k], wants) {
      TrapQuiet(groups, kept, dropped, d, [], k, wants);
    }
    QuietPrefix(bare, groups, f, wants);
    TurnAt(bare, groups, f, wants);
    TrapView(groups, kept, dropped, d, [], f);
    TrapLacks(groups, kept, dropped, d);
    MissingFacts(EntryDomains(bare), groups[f].lines);
    StepViews(bare, groups[f], wants, kept);
    var mid := Step(bare, groups[f], wants);
    StillThere(mid, groups[f + 1..], 0, |groups[f + 1..]|, wants, kept);
    NoTurns(mid, groups[f + 1..], wants);
  }

  lemma NoTurns(lines: seq<string>, groups: seq<Group>, wants: Features)
    ensures After(lines, groups, 0, wants) == lines
    ensures After(lines, groups, |groups|, wants) == Reconciled(lines, groups, wants)
  {
    assert groups[..|groups|] == groups;
  }
}
