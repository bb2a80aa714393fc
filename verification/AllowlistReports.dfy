/** What reconcile reports against what it did: every entry that comes or goes is in the report,
    and nothing else is. */
module AllowlistReports {
  import opened Allowlist
  import opened AllowlistLines
  import opened AllowlistViews
  import opened AllowlistSettling

  ghost function Come(changes: seq<Change>): multiset<string> {
    if changes == [] then multiset{}
    else
      Come(changes[..|changes| - 1])
      + match changes[|changes| - 1]
        case Added(_, domains) => multiset(domains)
        case Restored(_, domains) => multiset(domains)
        case _ => multiset{}
  }

  ghost function Gone(changes: seq<Change>): multiset<string> {
    if changes == [] then multiset{}
    else
      Gone(changes[..|changes| - 1])
      + match changes[|changes| - 1]
        case Removed(_, domains) => multiset(domains)
        case _ => multiset{}
  }

  lemma {:induction false} Totals(a: seq<Change>, b: seq<Change>)
    ensures Come(a + b) == Come(a) + Come(b) && Gone(a + b) == Gone(a) + Gone(b)
  {
    if b == [] {
      assert a + b == a;
    } else {
      var n := |b| - 1;
      assert (a + b)[..|a + b| - 1] == a + b[..n];
      Totals(a, b[..n]);
    }
  }

  lemma {:induction false} DroppedGo(lines: seq<string>, domains: seq<string>)
    ensures multiset(EntryDomains(Without(lines, domains))) + multiset(Dropped(lines, domains)) == multiset(EntryDomains(lines))
  {
    hide DomainOf, EntryDomains, Without, Dropped;
    if lines == [] {
      NoneGo(domains);
    } else {
      DroppedGo(lines[1..], domains);
      OneGoes(lines, domains);
      var d := DomainOf(lines[0]);
      CountOne(d, EntryDomains(lines[1..]));
      CountOne(d, Dropped(lines[1..], domains));
      CountOne(d, EntryDomains(Without(lines[1..], domains)));
    }
  }

  lemma NoneGo(domains: seq<string>)
    ensures EntryDomains([]) == [] && Without([], domains) == [] && Dropped([], domains) == []
  {
  }

  lemma CountOne(d: string, rest: seq<string>)
    ensures multiset([d] + rest) == multiset{d} + multiset(rest)
  {
  }

  lemma OneGoes(lines: seq<string>, domains: seq<string>)
    requires lines != []
    ensures var d, rest := DomainOf(lines[0]), lines[1..];
            if d == "" then
              && EntryDomains(lines) == EntryDomains(rest) && Dropped(lines, domains) == Dropped(rest, domains)
              && EntryDomains(Without(lines, domains)) == EntryDomains(Without(rest, domains))
            else if d in domains then
              && EntryDomains(lines) == [d] + EntryDomains(rest) && Dropped(lines, domains) == [d] + Dropped(rest, domains)
              && EntryDomains(Without(lines, domains)) == EntryDomains(Without(rest, domains))
            else
              && EntryDomains(lines) == [d] + EntryDomains(rest) && Dropped(lines, domains) == Dropped(rest, domains)
              && EntryDomains(Without(lines, domains)) == [d] + EntryDomains(Without(rest, domains))
  {
    hide DomainOf;
    var kept := Without(lines[1..], domains);
    assert ([lines[0]] + kept)[1..] == kept;
    assert [] + kept == kept;
    assert Without(lines, domains) == kept || Without(lines, domains) == [lines[0]] + kept;
  }

  /** What one turn says of a block, when there is one. */
  lemma AdjustBalances(inside: seq<string>, g: Group, wanted: bool)
    ensures var was, now := multiset(EntryDomains(inside)), multiset(EntryDomains(Adjust(inside, g, wanted)));
            if wanted then now == was + (if EntryDomains(inside) == [] then multiset(g.Domains()) else multiset{})
            else now + multiset(Dropped(inside, g.Domains())) == was
  {
    hide DomainOf, IsNote, EntryDomains, Without, Dropped, NonNotes, OmittedNote;
    if wanted {
      AdjustFills(inside, g);
    } else {
      DroppedGo(inside, g.Domains());
      WithoutFacts(inside, g.Domains());
      WrittenNote(g.features);
      NoteIsPlain(OmittedNote(g.features));
      NoEntries([OmittedNote(g.features)]);
      EntriesAppend([OmittedNote(g.features)], Without(inside, g.Domains()));
      assert [] + EntryDomains(Without(inside, g.Domains())) == EntryDomains(Without(inside, g.Domains()));
    }
  }

  lemma OneChange(c: Change)
    ensures Come([c]) == (match c case Added(_, ds) => multiset(ds) case Restored(_, ds) => multiset(ds) case _ => multiset{})
    ensures Gone([c]) == (match c case Removed(_, ds) => multiset(ds) case _ => multiset{})
  {
    assert [c][..0] == [];
  }

  lemma AppendedEntries(lines: seq<string>, g: Group)
    requires WellFormed(g)
    ensures EntryDomains(Appended(lines, g)) == EntryDomains(Missing(EntryDomains(lines), g.lines))
  {
    hide KindOf, DomainOf, IsNote, EntryDomains, Missing, AddedNote;
    var missing := Missing(EntryDomains(lines), g.lines);
    var head := ["", "# " + REQUIRES + " " + g.Label(), AddedNote(g.features)];
    BlankIsPlain();
    MarkerIsOpen(g);
    EndIsClose();
    WrittenNote(g.features);
    NoteIsPlain(AddedNote(g.features));
    forall l | l in head ensures DomainOf(l) == "" {
      var i :| 0 <= i < |head| && head[i] == l;
    }
    NoEntries(head);
    NoEntries(["# " + END]);
    EntriesAppend(head + missing, ["# " + END]);
    EntriesAppend(head, missing);
  }

  ghost predicate Balances(before: seq<string>, after: seq<string>, changes: seq<Change>) {
    multiset(EntryDomains(after)) + Gone(changes) == multiset(EntryDomains(before)) + Come(changes)
  }

  lemma AbsentBalances(lines: seq<string>, g: Group, wants: Features)
    requires WellFormed(g) && FindGroup(lines, g.Label()).0 < 0
    ensures Balances(lines, Step(lines, g, wants), StepChanges(lines, g, wants))
  {
    hide KindOf, FindGroup, EntryDomains, Missing, Appended, WellFormed, Come, Gone, Group.Label, Group.WantedBy;
    var missing := EntryDomains(Missing(EntryDomains(lines), g.lines));
    NoChange();
    OneChange(Added(g.Label(), missing));
    AppendedEntries(lines, g);
    EntriesAppend(lines, Appended(lines, g));
  }

  lemma ClosedBalances(lines: seq<string>, g: Group, wants: Features)
    requires FindGroup(lines, g.Label()).1 >= 0
    ensures Balances(lines, Step(lines, g, wants), StepChanges(lines, g, wants))
  {
    hide KindOf, FindGroup, EntryDomains, Adjust, Missing, Dropped, Appended, Come, Gone, Group.Label, Group.WantedBy, Group.Domains;
    var (start, end) := FindGroup(lines, g.Label());
    var inside, wanted := lines[start + 1..end], g.WantedBy(wants);
    var adjusted := Adjust(inside, g, wanted);
    NoChange();
    OneChange(Restored(g.Label(), g.Domains()));
    OneChange(Removed(g.Label(), Dropped(inside, g.Domains())));
    AdjustBalances(inside, g, wanted);
    assert lines == lines[..start + 1] + inside + lines[end..];
    EntriesAround(lines[..start + 1], inside, lines[end..]);
    EntriesAround(lines[..start + 1], adjusted, lines[end..]);
    Around(EntryDomains(lines[..start + 1]), EntryDomains(inside), EntryDomains(adjusted), EntryDomains(lines[end..]));
  }

  lemma Around(a: seq<string>, x: seq<string>, y: seq<string>, b: seq<string>)
    ensures multiset(a + x + b) == multiset(a) + multiset(x) + multiset(b)
    ensures multiset(a + y + b) == multiset(a) + multiset(y) + multiset(b)
  {
  }

  /** One turn: the entries after it and those reported gone are the entries before it and
      those reported come; a turn that reports nothing changes nothing. */
  lemma TurnBalances(lines: seq<string>, g: Group, wants: Features)
    requires WellFormed(g)
    ensures Balances(lines, Step(lines, g, wants), StepChanges(lines, g, wants))
    ensures StepChanges(lines, g, wants) == [] ==> Step(lines, g, wants) == lines
  {
    hide KindOf, EntryDomains, Adjust, Missing, Dropped, Appended, WellFormed, Come, Gone, Group.Label, FindGroup, Group.WantedBy;
    var (start, end) := FindGroup(lines, g.Label());
    if start < 0 {
      AbsentBalances(lines, g, wants);
    } else if end < 0 {
      NoChange();
      OneChange(Unclosed(g.Label()));
    } else {
      ClosedBalances(lines, g, wants);
      var inside := lines[start + 1..end];
      assert lines == lines[..start + 1] + inside + lines[end..];
      if StepChanges(lines, g, wants) == [] {
        Quietly(inside, g, g.WantedBy(wants));
      }
    }
  }

  lemma NoChange()
    ensures Come([]) == multiset{} && Gone([]) == multiset{}
  {
  }

  lemma Quietly(inside: seq<string>, g: Group, wanted: bool)
    requires if wanted then EntryDomains(inside) != [] else Dropped(inside, g.Domains()) == []
    ensures Adjust(inside, g, wanted) == inside
  {
  }

  /** What a change says of a group's block, before and after its turn. */
  ghost predicate Tells(c: Change, g: Group, wanted: bool, held: seq<string>, v: View, now: View) {
    match c
    case Unclosed(tag) => tag == g.Label() && v.Unbounded? && now == v
    case Added(tag, ds) =>
      && tag == g.Label() && wanted && v.Absent? && now.Closed?
      && ds == EntryDomains(now.inside) != [] && forall d <- ds :: d in g.Domains() && d !in held
    case Restored(tag, ds) =>
      && tag == g.Label() && wanted && v.Closed? && now.Closed?
      && EntryDomains(v.inside) == [] && ds == EntryDomains(now.inside) == g.Domains()
    case Removed(tag, ds) =>
      && tag == g.Label() && !wanted && v.Closed? && now.Closed? && ds != []
      && (forall d <- ds :: d in EntryDomains(v.inside) && d in g.Domains())
      && forall d <- g.Domains() :: d !in EntryDomains(now.inside)
  }

  /** Which change a turn reports, and what it names: what the block gained, or what it lost. */
  lemma TurnReports(lines: seq<string>, g: Group, wants: Features)
    requires WellFormed(g)
    ensures var v, now, changes := ViewOf(lines, g.Label()), ViewOf(Step(lines, g, wants), g.Label()), StepChanges(lines, g, wants);
            if changes == [] then now == v && !v.Unbounded?
            else |changes| == 1 && Tells(changes[0], g, g.WantedBy(wants), EntryDomains(lines), v, now)
  {
    hide KindOf, FindGroup, DomainOf, IsNote, EntryDomains, Adjust, Missing, Dropped, WellFormed, Group.Label, Step, Group.WantedBy,
         Group.Domains;
    StepViews(lines, g, wants, g.Label());
    var (start, end) := FindGroup(lines, g.Label());
    var v := ViewOf(lines, g.Label());
    if v.Absent? {
      var missing := Missing(EntryDomains(lines), g.lines);
      MissingDomains(EntryDomains(lines), g);
      AddedHasNoEntries(g, missing);
    } else if v.Closed? {
      BlockReports(v.inside, g, g.WantedBy(wants));
    }
  }

  lemma MissingDomains(held: seq<string>, g: Group)
    ensures forall d <- EntryDomains(Missing(held, g.lines)) :: d in g.Domains() && d !in held
  {
    MissingFacts(held, g.lines);
  }

  lemma BlockReports(inside: seq<string>, g: Group, wanted: bool)
    ensures wanted && EntryDomains(inside) == [] ==> EntryDomains(Adjust(inside, g, wanted)) == g.Domains()
    ensures (if wanted then EntryDomains(inside) != [] else Dropped(inside, g.Domains()) == []) ==> Adjust(inside, g, wanted) == inside
    ensures !wanted ==> (forall d <- Dropped(inside, g.Domains()) :: d in EntryDomains(inside) && d in g.Domains())
                        && forall d <- g.Domains() :: d !in EntryDomains(Adjust(inside, g, wanted))
  {
    hide DomainOf, EntryDomains, Adjust, Dropped, Without;
    if wanted {
      AdjustFills(inside, g);
    } else {
      WithoutFacts(inside, g.Domains());
      AdjustDrops(inside, g);
      if Dropped(inside, g.Domains()) == [] {
        Quietly(inside, g, false);
      }
    }
  }

  lemma AddedHasNoEntries(g: Group, missing: seq<string>)
    ensures EntryDomains([AddedNote(g.features)] + missing) == EntryDomains(missing)
  {
    hide DomainOf, IsNote, AddedNote;
    WrittenNote(g.features);
    NoteIsPlain(AddedNote(g.features));
    assert ([AddedNote(g.features)] + missing)[1..] == missing;
  }

  /** The whole pass: its report accounts for every entry, come or gone, as often as it did. */
  lemma {:induction false} PassBalances(lines: seq<string>, groups: seq<Group>, wants: Features)
    requires forall g <- groups :: WellFormed(g)
    ensures Balances(lines, Reconciled(lines, groups, wants), ReconcileChanges(lines, groups, wants))
  {
    hide Step, StepChanges, WellFormed, Come, Gone, EntryDomains;
    if groups == [] {
      NoChange();
    } else {
      var n := |groups| - 1;
      assert groups[n] in groups;
      PassBalances(lines, groups[..n], wants);
      var mid := Reconciled(lines, groups[..n], wants);
      TurnBalances(mid, groups[n], wants);
      var first, second := ReconcileChanges(lines, groups[..n], wants), StepChanges(mid, groups[n], wants);
      Totals(first, second);
      BalancesTwice(lines, mid, Step(mid, groups[n], wants), first, second);
    }
  }

  lemma BalancesTwice(a: seq<string>, b: seq<string>, c: seq<string>, first: seq<Change>, second: seq<Change>)
    requires Balances(a, b, first) && Balances(b, c, second)
    requires Come(first + second) == Come(first) + Come(second) && Gone(first + second) == Gone(first) + Gone(second)
    ensures Balances(a, c, first + second)
  {
    hide Come, Gone, EntryDomains;
    var x, y, z := multiset(EntryDomains(a)), multiset(EntryDomains(b)), multiset(EntryDomains(c));
    assert z + (Gone(first) + Gone(second)) == (z + Gone(second)) + Gone(first);
    assert (y + Come(second)) + Gone(first) == (y + Gone(first)) + Come(second);
    assert (x + Come(first)) + Come(second) == x + (Come(first) + Come(second));
  }
}
