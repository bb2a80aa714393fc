/** What a seed holds: exactly the ungrouped entries and those of the wanted groups; it is
    stable under seeding again, grows with the features, and is already reconciled. */
module AllowlistSeeds {
  import opened Text
  import opened Allowlist
  import opened AllowlistLines
  import opened AllowlistDocs

  ghost function SegEntries(s: Seg, wants: Features): seq<string> {
    match s
    case Plain(line) => EntryDomains([line])
    case Block(_, inside, _) => if s.AsGroup().WantedBy(wants) then EntryDomains(inside) else []
  }

  /** The ungrouped entries and those of the wanted groups, in template order. */
  ghost function DocEntries(t: Doc, wants: Features): seq<string> {
    if t == [] then [] else SegEntries(t[0], wants) + DocEntries(t[1..], wants)
  }

  /** A list segment that holds what the template segment grants under `wants`. */
  ghost predicate SegFollows(s: Seg, t: Seg, wants: Features) {
    if t.Plain? then s == t
    else
      && s.Block? && s.open == t.open && s.close == t.close
      && EntryDomains(s.inside) == SegEntries(t, wants)
      && forall l <- s.inside :: KindOf(l) == Other && OneLine(l)
  }

  ghost predicate Follows(d: Doc, t: Doc, wants: Features) {
    |d| == |t| && forall i :: 0 <= i < |t| ==> SegFollows(d[i], t[i], wants)
  }

  lemma {:induction false} DocEntriesAppend(a: Doc, b: Doc, wants: Features)
    ensures DocEntries(a + b, wants) == DocEntries(a, wants) + DocEntries(b, wants)
  {
    hide SegEntries;
    if a == [] {
      assert a + b == b;
    } else {
      assert (a + b)[1..] == a[1..] + b;
      DocEntriesAppend(a[1..], b, wants);
    }
  }

  lemma SegFollowsEntries(s: Seg, t: Seg, wants: Features)
    requires SegFollows(s, t, wants) && Accepted(t)
    ensures EntryDomains(s.Lines()) == SegEntries(t, wants)
    ensures s.Shaped() && forall l <- s.Lines() :: OneLine(l)
  {
    hide KindOf, DomainOf, OneLine;
    ShapeOf(t);
    if t.Block? {
      MarkersAreNoEntries(t);
      EntriesAppend([s.open], s.inside);
      EntriesAppend([s.open] + s.inside, [s.close]);
      assert EntryDomains([s.open]) == [] && EntryDomains([s.close]) == [];
    }
  }

  lemma ShapeOf(t: Seg)
    requires Accepted(t)
    ensures t.Shaped()
    ensures t.Block? ==> KindOf(t.open) == Open(t.AsGroup().Label()) && OneLine(t.open) && OneLine(t.close)
    ensures t.Block? ==> t.Features() != [] && forall f <- t.Features() :: IsWord(f)
    ensures t.Block? ==> forall l <- t.inside :: OneLine(l)
    ensures t.Plain? ==> OneLine(t.line)
  {
    AcceptedIsShaped([t]);
    assert t in [t];
  }

  lemma MarkersAreNoEntries(t: Seg)
    requires Accepted(t) && t.Block?
    ensures DomainOf(t.open) == "" && DomainOf(t.close) == ""
  {
    hide KindOf;
    if DomainOf(t.open) != "" {
      EntryIsPlain(t.open);
    }
    if DomainOf(t.close) != "" {
      EntryIsPlain(t.close);
    }
  }

  lemma {:induction false} FollowsEntries(d: Doc, t: Doc, wants: Features)
    requires Follows(d, t, wants) && AcceptedDoc(t)
    ensures EntryDomains(Flatten(d)) == DocEntries(t, wants)
    ensures Shaped(d) && forall l <- Flatten(d) :: OneLine(l)
  {
    hide SegFollows, Accepted, SegEntries, KindOf, DomainOf, OneLine;
    if t != [] {
      assert t[0] in t;
      SegFollowsEntries(d[0], t[0], wants);
      FollowsEntries(d[1..], t[1..], wants);
      EntriesAppend(d[0].Lines(), Flatten(d[1..]));
      assert d == [d[0]] + d[1..];
    }
  }

  lemma {:induction false} SeedFollows(t: Doc, wants: Features)
    requires AcceptedDoc(t)
    ensures Follows(SeedDoc(t, wants), t, wants)
    ensures AcceptedDoc(SeedDoc(t, wants))
    ensures SeedDoc(SeedDoc(t, wants), wants) == SeedDoc(t, wants)
  {
    hide Accepted, SegFollows, SeedSeg;
    if t != [] {
      assert t[0] in t;
      SeedFollows(t[1..], wants);
      SeedSegFollows(t[0], wants);
      var s, rest := SeedSeg(t[0], wants), SeedDoc(t[1..], wants);
      assert ([s] + rest)[1..] == rest;
      assert SeedDoc([s] + rest, wants) == [SeedSeg(s, wants)] + SeedDoc(rest, wants);
    }
  }

  lemma SeedSegFollows(b: Seg, wants: Features)
    requires Accepted(b)
    ensures var s := SeedSeg(b, wants); SegFollows(s, b, wants) && Accepted(s) && SeedSeg(s, wants) == s
  {
    hide KindOf, ParseMarker, DomainOf, OneLine, OmittedNote, UnknownAmong, Group.WantedBy, IsNote, Fields;
    ShapeOf(b);
    var s := SeedSeg(b, wants);
    if b.Block? {
      WrittenNote(b.Features());
      NoteIsPlain(OmittedNote(b.Features()));
      NoteIsOneLine(b.Features());
      SameWanted(b, s, wants);
      assert s.AsGroup().features == b.AsGroup().features;
      if !b.AsGroup().WantedBy(wants) {
        assert EntryDomains([OmittedNote(b.Features())]) == [];
      }
    }
  }

  // --- reading a document back ------------------------------------------------------------

  lemma {:induction false} DocOfBlock(open: string, soFar: seq<string>, lines: seq<string>, close: string, rest: seq<string>)
    requires ParseMarker(close).directive == END
    requires forall l <- lines :: ParseMarker(l).directive == ""
    ensures DocFrom(lines + [close] + rest, Some(Block(open, soFar, "")))
         == Prepend(Block(open, soFar + lines, close), DocFrom(rest, None))
    decreases |lines|
  {
    hide ParseMarker, UnknownAmong, Fields;
    var whole := lines + [close] + rest;
    if lines == [] {
      assert whole == [close] + rest && soFar + lines == soFar;
      assert whole[1..] == rest;
    } else {
      assert lines[0] in lines;
      assert whole[1..] == lines[1..] + [close] + rest;
      DocOfBlock(open, soFar + [lines[0]], lines[1..], close, rest);
      assert soFar + [lines[0]] + lines[1..] == soFar + lines;
    }
  }

  lemma DocOfSeg(s: Seg, rest: seq<string>)
    requires Accepted(s)
    ensures DocFrom(s.Lines() + rest, None) == Prepend(s, DocFrom(rest, None))
  {
    hide ParseMarker, Fields, OneLine;
    match s
    case Plain(line) =>
      assert ([line] + rest)[1..] == rest;
    case Block(open, inside, close) =>
      var tail := inside + [close] + rest;
      assert s.Lines() + rest == [open] + tail;
      assert ([open] + tail)[1..] == tail;
      DocOfBlock(open, [], inside, close, rest);
      assert [] + inside == inside;
  }

  /** Reading the lines of an accepted document gives the document back. */
  lemma {:induction false} DocOfFlatten(t: Doc)
    requires AcceptedDoc(t)
    ensures DocFrom(Flatten(t), None) == Some(t)
  {
    hide Accepted, Seg.Lines;
    if t != [] {
      assert t[0] in t;
      DocOfFlatten(t[1..]);
      DocOfSeg(t[0], Flatten(t[1..]));
      assert [t[0]] + t[1..] == t;
    }
  }

  /** The document of a template that SeedFor accepts. */
  lemma TemplateDoc(template: seq<string>, wants: Features) returns (t: Doc)
    requires forall l <- template :: OneLine(l)
    requires SeedLines(template, wants).Ok?
    ensures DocFrom(template, None) == Some(t)
    ensures AcceptedDoc(t) && Flatten(t) == template
    ensures SeedLines(template, wants) == Ok(Flatten(SeedDoc(t, wants)))
  {
    SeedIsDoc(template, None, wants);
    DocIsAccepted(template, None);
    t := DocFrom(template, None).value;
    var out := SeedLines(template, wants).value;
    assert [] + out == out && [] + template == template;
  }

  /** A template is accepted exactly when it is the text of a document of plain lines and
      closed groups with known features. */
  lemma AcceptedExactly(template: seq<string>, wants: Features)
    requires forall l <- template :: OneLine(l)
    ensures SeedLines(template, wants).Ok? <==> exists t :: AcceptedDoc(t) && Flatten(t) == template
  {
    hide Accepted, Flatten, AcceptedDoc;
    SeedIsDoc(template, None, wants);
    if SeedLines(template, wants).Ok? {
      var t := TemplateDoc(template, wants);
      assert AcceptedDoc(t) && Flatten(t) == template;
    }
    if exists t :: AcceptedDoc(t) && Flatten(t) == template {
      var t :| AcceptedDoc(t) && Flatten(t) == template;
      DocOfFlatten(t);
    }
  }

  // --- the theorems about seeds -------------------------------------------------------------

  /** A template is accepted for every configuration or for none, and templateGroups then
      accepts it too. */
  lemma AcceptanceIgnoresFeatures(template: seq<string>, wants: Features, other: Features)
    ensures SeedLines(template, wants).Ok? == SeedLines(template, other).Ok?
    ensures SeedLines(template, wants).Ok? ==> GroupsFrom(template, None).Ok?
  {
    SeedIsDoc(template, None, wants);
    SeedIsDoc(template, None, other);
    if SeedLines(template, wants).Ok? {
      GroupsAreDocGroups(template, None);
    }
  }

  /** The seed's entries are the ungrouped ones and those of the wanted groups, and the
      groups templateGroups finds are the template's blocks. */
  lemma SeedHoldsWhatIsWanted(template: seq<string>, wants: Features)
    requires forall l <- template :: OneLine(l)
    requires SeedLines(template, wants).Ok?
    ensures var t := DocFrom(template, None);
            && t.Some? && Flatten(t.value) == template
            && EntryDomains(SeedLines(template, wants).value) == DocEntries(t.value, wants)
            && GroupsFrom(template, None) == Ok(DocGroups(t.value))
  {
    var t := TemplateDoc(template, wants);
    SeedFollows(t, wants);
    FollowsEntries(SeedDoc(t, wants), t, wants);
    GroupsAreDocGroups(template, None);
  }

  /** Seeding a seed again with the same configuration changes nothing. */
  lemma SeedIsIdempotent(template: seq<string>, wants: Features)
    requires forall l <- template :: OneLine(l)
    requires SeedLines(template, wants).Ok?
    ensures SeedLines(SeedLines(template, wants).value, wants) == SeedLines(template, wants)
  {
    var t := TemplateDoc(template, wants);
    var s := SeedDoc(t, wants);
    SeedFollows(t, wants);
    FollowsEntries(s, t, wants);
    DocOfFlatten(s);
    SeedIsDoc(Flatten(s), None, wants);
    var again := SeedLines(Flatten(s), wants).value;
    assert [] + again == again;
  }

  lemma {:induction false} SubsequenceBoth(a: seq<string>, b: seq<string>, c: seq<string>, d: seq<string>)
    requires Subsequence(a, b) && Subsequence(c, d)
    ensures Subsequence(a + c, b + d)
    decreases |b|
  {
    if b == [] {
      assert a + c == c && b + d == d;
    } else {
      assert (b + d)[1..] == b[1..] + d;
      if a != [] && a[0] == b[0] && Subsequence(a[1..], b[1..]) {
        SubsequenceBoth(a[1..], b[1..], c, d);
        assert (a + c)[1..] == a[1..] + c;
      } else {
        SubsequenceBoth(a, b[1..], c, d);
      }
    }
  }

  lemma {:induction false} SubsequenceSame(a: seq<string>)
    ensures Subsequence(a, a)
  {
    if a != [] {
      SubsequenceSame(a[1..]);
    }
  }

  lemma {:induction false} DocEntriesMonotone(t: Doc, fewer: Features, more: Features)
    requires fewer <= more
    ensures Subsequence(DocEntries(t, fewer), DocEntries(t, more))
  {
    hide EntryDomains;
    if t != [] {
      DocEntriesMonotone(t[1..], fewer, more);
      SubsequenceSame(SegEntries(t[0], fewer));
      SubsequenceBoth(SegEntries(t[0], fewer), SegEntries(t[0], more), DocEntries(t[1..], fewer), DocEntries(t[1..], more));
    }
  }

  /** More features never take an entry away or reorder the ones there were. */
  lemma SeedIsMonotone(template: seq<string>, fewer: Features, more: Features)
    requires forall l <- template :: OneLine(l)
    requires fewer <= more && SeedLines(template, fewer).Ok?
    ensures SeedLines(template, more).Ok?
    ensures Subsequence(EntryDomains(SeedLines(template, fewer).value), EntryDomains(SeedLines(template, more).value))
  {
    AcceptanceIgnoresFeatures(template, fewer, more);
    SeedHoldsWhatIsWanted(template, fewer);
    SeedHoldsWhatIsWanted(template, more);
    DocEntriesMonotone(DocFrom(template, None).value, fewer, more);
  }
}
