/** Lists and templates seen as documents: plain lines and closed groups. An accepted
    template is such a document, its seed is the same document with the unwanted groups
    emptied, and one turn of reconcile rewrites the inside of one group. */
module AllowlistDocs {
  import opened Text
  import opened Allowlist
  import opened AllowlistLines

  datatype Seg =
    | Plain(line: string)
    | Block(open: string, inside: seq<string>, close: string)
  {
    function Lines(): seq<string> {
      match this
      case Plain(line) => [line]
      case Block(open, inside, close) => [open] + inside + [close]
    }

    function Features(): seq<string>
      requires Block?
    {
      Fields(ParseMarker(open).argument)
    }

    function AsGroup(): Group
      requires Block?
    {
      Group(Features(), inside)
    }

    /** Lines that findGroup reads as this segment. */
    predicate Shaped() {
      match this
      case Plain(line) => KindOf(line) == Other
      case Block(open, inside, close) =>
        KindOf(open).Open? && KindOf(close) == Close && forall l <- inside :: KindOf(l) == Other
    }
  }

  type Doc = seq<Seg>

  function Flatten(d: Doc): seq<string> {
    if d == [] then [] else d[0].Lines() + Flatten(d[1..])
  }

  predicate Shaped(d: Doc) {
    forall s <- d :: s.Shaped()
  }

  predicate HasTag(s: Seg, tag: string) {
    s.Block? && KindOf(s.open) == Open(tag)
  }

  lemma {:induction false} FlattenAppend(a: Doc, b: Doc)
    ensures Flatten(a + b) == Flatten(a) + Flatten(b)
  {
    if a == [] {
      assert a + b == b;
    } else {
      assert (a + b)[1..] == a[1..] + b;
      FlattenAppend(a[1..], b);
    }
  }

  lemma FlattenAround(d: Doc, k: nat)
    requires k < |d|
    ensures Flatten(d) == Flatten(d[..k]) + d[k].Lines() + Flatten(d[k + 1..])
  {
    assert d == d[..k] + d[k..];
    FlattenAppend(d[..k], d[k..]);
  }

  /** Every line of a document that is not the start of a block named `tag`. */
  lemma {:induction false} NoTagInside(d: Doc, tag: string)
    requires Shaped(d) && forall s <- d :: !HasTag(s, tag)
    ensures forall l <- Flatten(d) :: KindOf(l) != Open(tag)
  {
    hide KindOf;
    if d != [] {
      assert d[0] in d;
      NoTagInside(d[1..], tag);
    }
  }

  lemma FindAbsent(d: Doc, tag: string)
    requires Shaped(d) && forall s <- d :: !HasTag(s, tag)
    ensures FindGroup(Flatten(d), tag) == (-1, -1)
  {
    hide KindOf;
    NoTagInside(d, tag);
    assert forall i :: 0 <= i < |Flatten(d)| ==> Flatten(d)[i] in Flatten(d);
  }

  /** findGroup finds the first group of that name, and the whole of it. */
  lemma FindBetween(before: seq<string>, b: Seg, after: seq<string>, tag: string)
    requires b.Shaped() && HasTag(b, tag)
    requires forall l <- before :: KindOf(l) != Open(tag)
    ensures var at, lines := |before|, before + b.Lines() + after;
            && FindGroup(lines, tag) == (at, at + 1 + |b.inside|)
            && lines[..at + 1] == before + [b.open]
            && lines[at + 1..at + 1 + |b.inside|] == b.inside
            && lines[at + 1 + |b.inside|..] == [b.close] + after
  {
    hide KindOf, FindGroup;
    var at, stop := |before|, |before| + 1 + |b.inside|;
    var lines := before + ([b.open] + b.inside + [b.close]) + after;
    assert lines[at] == b.open && lines[stop] == b.close;
    forall i | 0 <= i < at ensures KindOf(lines[i]) != Open(tag) {
      assert lines[i] == before[i] && before[i] in before;
    }
    forall i | at < i < stop ensures KindOf(lines[i]) == Other {
      assert lines[i] == b.inside[i - at - 1] && b.inside[i - at - 1] in b.inside;
    }
    FindGroupIs(lines, tag, at, stop);
  }

  /** One turn of reconcile on a document that has the group. */
  lemma StepInDoc(d: Doc, k: nat, g: Group, wants: Features)
    requires k < |d| && Shaped(d) && HasTag(d[k], g.Label())
    requires forall j :: 0 <= j < k ==> !HasTag(d[j], g.Label())
    ensures Step(Flatten(d), g, wants)
         == Flatten(d[k := d[k].(inside := Adjust(d[k].inside, g, g.WantedBy(wants)))])
  {
    hide KindOf, FindGroup, Flatten, Adjust, Group.WantedBy, Group.Label;
    var adjusted := Adjust(d[k].inside, g, g.WantedBy(wants));
    var d' := d[k := d[k].(inside := adjusted)];
    var before, after := Flatten(d[..k]), Flatten(d[k + 1..]);
    assert d[k] in d;
    NoTagInside(d[..k], g.Label());
    FlattenAround(d, k);
    FindBetween(before, d[k], after, g.Label());
    FlattenAround(d', k);
    assert d'[..k] == d[..k] && d'[k + 1..] == d[k + 1..];
    Regroup(before, d[k].open, adjusted, d[k].close, after);
  }

  lemma Regroup(before: seq<string>, open: string, inside: seq<string>, close: string, after: seq<string>)
    ensures before + [open] + inside + ([close] + after) == before + ([open] + inside + [close]) + after
  {
  }

  lemma AdjustStaysPlain(inside: seq<string>, g: Group, wanted: bool)
    requires forall l <- inside :: KindOf(l) == Other && OneLine(l)
    requires forall l <- g.lines :: KindOf(l) == Other && OneLine(l)
    requires forall f <- g.features :: IsWord(f)
    ensures forall l <- Adjust(inside, g, wanted) :: KindOf(l) == Other && OneLine(l)
  {
    hide KindOf;
    NonNotesKeepEntries(inside);
    WithoutFacts(inside, g.Domains());
    NoteIsOneLine(g.features);
  }

  lemma NoteIsOneLine(features: seq<string>)
    requires forall f <- features :: IsWord(f)
    ensures OneLine(OmittedNote(features)) && KindOf(OmittedNote(features)) == Other
  {
    hide KindOf, IsNote, Join;
    WrittenNote(features);
    NoteIsPlain(OmittedNote(features));
    JoinIsOneLine(features, " or ");
  }

  lemma {:induction false} JoinIsOneLine(parts: seq<string>, sep: string)
    requires OneLine(sep) && forall p <- parts :: IsWord(p)
    ensures OneLine(Join(parts, sep))
  {
    if parts != [] {
      assert parts[0] in parts;
      assert forall c <- parts[0] :: !IsSpace(c);
      assert OneLine(parts[0]);
      JoinIsOneLine(parts[1..], sep);
    }
  }

  // --- templates -----------------------------------------------------------------------

  /** The document an accepted template is; None for a template SeedFor refuses. `pending`
      is the block being read, its close not yet known. */
  ghost function DocFrom(lines: seq<string>, pending: Option<Seg>): Option<Doc>
    requires pending.Some? ==> pending.value.Block?
  {
    if lines == [] then (if pending.Some? then None else Some([]))
    else
      var m := ParseMarker(lines[0]);
      if m.directive == REQUIRES then
        if pending.Some? || Fields(m.argument) == [] || UnknownAmong(Fields(m.argument)).Some? then None
        else DocFrom(lines[1..], Some(Block(lines[0], [], "")))
      else if m.directive == END then
        if pending.None? then None else Prepend(pending.value.(close := lines[0]), DocFrom(lines[1..], None))
      else if m.directive != "" then None
      else if pending.Some? then
        DocFrom(lines[1..], Some(pending.value.(inside := pending.value.inside + [lines[0]])))
      else Prepend(Plain(lines[0]), DocFrom(lines[1..], None))
  }

  ghost function Prepend(s: Seg, rest: Option<Doc>): Option<Doc> {
    if rest.Some? then Some([s] + rest.value) else None
  }

  ghost function SeedSeg(s: Seg, wants: Features): Seg {
    if s.Plain? || s.AsGroup().WantedBy(wants) then s else s.(inside := [OmittedNote(s.Features())])
  }

  ghost function SeedDoc(t: Doc, wants: Features): Doc {
    if t == [] then [] else [SeedSeg(t[0], wants)] + SeedDoc(t[1..], wants)
  }

  function DocGroups(t: Doc): seq<Group> {
    if t == [] then []
    else (if t[0].Block? then [t[0].AsGroup()] else []) + DocGroups(t[1..])
  }

  /** The part of an unfinished block that SeedFor has written, and that templateGroups holds. */
  ghost function SeedPending(pending: Option<Seg>, wants: Features): seq<string>
    requires pending.Some? ==> pending.value.Block?
  {
    if pending.None? then [] else [pending.value.open] + SeedSeg(pending.value, wants).inside
  }

  ghost function Keeps(pending: Option<Seg>, wants: Features): bool
    requires pending.Some? ==> pending.value.Block?
  {
    pending.None? || pending.value.AsGroup().WantedBy(wants)
  }

  /** SeedFor accepts exactly what is a document, and writes the document with its unwanted
      groups emptied down to their note. */
  ghost predicate SeedAgrees(lines: seq<string>, pending: Option<Seg>, wants: Features)
    requires pending.Some? ==> pending.value.Block?
  {
    var doc := DocFrom(lines, pending);
    var seed := SeedFrom(lines, wants, pending.Some?, Keeps(pending, wants));
    && seed.Ok? == doc.Some?
    && (doc.Some? ==> Flatten(SeedDoc(doc.value, wants)) == SeedPending(pending, wants) + seed.value)
  }

  /** Reading a template as a document and seeding it agree. */
  lemma {:induction false} SeedIsDoc(lines: seq<string>, pending: Option<Seg>, wants: Features)
    requires pending.Some? ==> pending.value.Block?
    ensures SeedAgrees(lines, pending, wants)
  {
    hide ParseMarker, Fields, UnknownAmong, SeedAgrees;
    if lines == [] {
      SeedEnds(pending, wants);
    } else {
      var directive := ParseMarker(lines[0]).directive;
      if directive == REQUIRES {
        SeedIsDoc(lines[1..], Some(Block(lines[0], [], "")), wants);
        SeedAtRequires(lines, pending, wants);
      } else if directive == END {
        SeedIsDoc(lines[1..], None, wants);
        SeedAtEnd(lines, pending, wants);
      } else if pending.Some? {
        SeedIsDoc(lines[1..], Some(pending.value.(inside := pending.value.inside + [lines[0]])), wants);
        SeedInside(lines, pending.value, wants);
      } else {
        SeedIsDoc(lines[1..], None, wants);
        SeedOutside(lines, wants);
      }
    }
  }

  lemma SeedEnds(pending: Option<Seg>, wants: Features)
    requires pending.Some? ==> pending.value.Block?
    ensures SeedAgrees([], pending, wants)
  {
  }

  lemma SeedAtRequires(lines: seq<string>, pending: Option<Seg>, wants: Features)
    requires pending.Some? ==> pending.value.Block?
    requires lines != [] && ParseMarker(lines[0]).directive == REQUIRES
    requires SeedAgrees(lines[1..], Some(Block(lines[0], [], "")), wants)
    ensures SeedAgrees(lines, pending, wants)
  {
    hide ParseMarker, Fields, UnknownAmong, SeedDoc, OmittedNote, Group.WantedBy, Flatten, SeedPending, Keeps;
    SeedOpens(lines[0], wants);
    SeedStarts(wants);
  }

  lemma SeedAtEnd(lines: seq<string>, pending: Option<Seg>, wants: Features)
    requires pending.Some? ==> pending.value.Block?
    requires lines != [] && ParseMarker(lines[0]).directive == END
    requires SeedAgrees(lines[1..], None, wants)
    ensures SeedAgrees(lines, pending, wants)
  {
    hide ParseMarker, Fields, UnknownAmong, SeedDoc, OmittedNote, Group.WantedBy, Flatten, SeedPending, Keeps, SeedSeg;
    SeedStarts(wants);
    var doc := DocFrom(lines[1..], None);
    if pending.Some? && doc.Some? {
      SeedDocCons(pending.value.(close := lines[0]), doc.value, wants);
      SeedCloses(pending.value, lines[0], wants);
      assert SeedPending(pending, wants) + [lines[0]] + Flatten(SeedDoc(doc.value, wants))
          == SeedPending(pending, wants) + ([lines[0]] + Flatten(SeedDoc(doc.value, wants)));
    }
  }

  lemma SeedInside(lines: seq<string>, b: Seg, wants: Features)
    requires b.Block? && lines != []
    requires ParseMarker(lines[0]).directive != REQUIRES && ParseMarker(lines[0]).directive != END
    requires SeedAgrees(lines[1..], Some(b.(inside := b.inside + [lines[0]])), wants)
    ensures SeedAgrees(lines, Some(b), wants)
  {
    hide ParseMarker, Fields, UnknownAmong, SeedDoc, OmittedNote, Group.WantedBy, Flatten, SeedPending, Keeps, SeedSeg;
    SeedGrows(b, lines[0], wants);
    var keep := Keeps(Some(b), wants);
    var seed := SeedFrom(lines[1..], wants, true, keep);
    var emitted := if keep then [lines[0]] else [];
    if seed.Ok? {
      assert SeedPending(Some(b), wants) + emitted + seed.value == SeedPending(Some(b), wants) + (emitted + seed.value);
    }
  }

  lemma SeedOutside(lines: seq<string>, wants: Features)
    requires lines != []
    requires ParseMarker(lines[0]).directive != REQUIRES && ParseMarker(lines[0]).directive != END
    requires SeedAgrees(lines[1..], None, wants)
    ensures SeedAgrees(lines, None, wants)
  {
    hide ParseMarker, Fields, UnknownAmong, SeedDoc, OmittedNote, Group.WantedBy, Flatten, SeedPending, Keeps, SeedSeg;
    SeedStarts(wants);
    var doc := DocFrom(lines[1..], None);
    if doc.Some? {
      SeedDocCons(Plain(lines[0]), doc.value, wants);
      SeedPlain(lines[0], wants);
    }
  }

  lemma SeedStarts(wants: Features)
    ensures SeedPending(None, wants) == [] && Keeps(None, wants)
  {
  }

  lemma SeedPlain(line: string, wants: Features)
    ensures SeedSeg(Plain(line), wants).Lines() == [line]
  {
  }

  lemma SeedOpens(open: string, wants: Features)
    ensures var features := Fields(ParseMarker(open).argument);
            && Keeps(Some(Block(open, [], "")), wants) == Group(features, []).WantedBy(wants)
            && SeedPending(Some(Block(open, [], "")), wants)
               == [open] + if Group(features, []).WantedBy(wants) then [] else [OmittedNote(features)]
  {
    hide ParseMarker, Fields, OmittedNote;
    assert Block(open, [], "").AsGroup() == Group(Fields(ParseMarker(open).argument), []);
  }

  lemma SeedGrows(b: Seg, line: string, wants: Features)
    requires b.Block?
    ensures var longer := b.(inside := b.inside + [line]);
            && Keeps(Some(longer), wants) == Keeps(Some(b), wants)
            && SeedPending(Some(longer), wants)
               == SeedPending(Some(b), wants) + if Keeps(Some(b), wants) then [line] else []
  {
    hide OmittedNote, ParseMarker, Fields;
    SameWanted(b, b.(inside := b.inside + [line]), wants);
    assert [b.open] + (b.inside + [line]) == [b.open] + b.inside + [line];
  }

  lemma SeedCloses(b: Seg, close: string, wants: Features)
    requires b.Block?
    ensures SeedSeg(b.(close := close), wants).Lines() == SeedPending(Some(b), wants) + [close]
  {
    hide OmittedNote, ParseMarker, Fields;
    SameWanted(b, b.(close := close), wants);
  }

  lemma SeedDocCons(s: Seg, rest: Doc, wants: Features)
    ensures Flatten(SeedDoc([s] + rest, wants)) == SeedSeg(s, wants).Lines() + Flatten(SeedDoc(rest, wants))
  {
    hide SeedSeg, Seg.Lines;
    var tail := SeedDoc(rest, wants);
    assert ([s] + rest)[1..] == rest;
    assert ([SeedSeg(s, wants)] + tail)[1..] == tail;
  }

  lemma SameWanted(a: Seg, b: Seg, wants: Features)
    requires a.Block? && b.Block? && a.open == b.open
    ensures a.AsGroup().WantedBy(wants) == b.AsGroup().WantedBy(wants)
  {
    hide ParseMarker, Fields;
    assert a.Features() == b.Features();
  }

  lemma {:induction false} GroupsAreDocGroups(lines: seq<string>, pending: Option<Seg>)
    requires pending.Some? ==> pending.value.Block?
    requires DocFrom(lines, pending).Some?
    ensures GroupsFrom(lines, if pending.Some? then Some(pending.value.AsGroup()) else None)
         == Ok(DocGroups(DocFrom(lines, pending).value))
  {
    hide ParseMarker, Fields, UnknownAmong;
    if lines != [] {
      var m := ParseMarker(lines[0]);
      var rest := lines[1..];
      if m.directive == REQUIRES {
        GroupsAreDocGroups(rest, Some(Block(lines[0], [], "")));
      } else if m.directive == END {
        GroupsAreDocGroups(rest, None);
        var doc := DocFrom(rest, None).value;
        assert ([pending.value.(close := lines[0])] + doc)[1..] == doc;
      } else if pending.Some? {
        GroupsAreDocGroups(rest, Some(pending.value.(inside := pending.value.inside + [lines[0]])));
      } else {
        GroupsAreDocGroups(rest, None);
        var doc := DocFrom(rest, None).value;
        var whole := [Plain(lines[0])] + doc;
        assert whole[0].Plain? && whole[1..] == doc;
        assert DocGroups(whole) == [] + DocGroups(doc) == DocGroups(doc);
      }
    }
  }

  /** What acceptance guarantees of each segment. */
  ghost predicate Accepted(s: Seg) {
    match s
    case Plain(line) => ParseMarker(line).directive == "" && OneLine(line)
    case Block(open, inside, close) =>
      && ParseMarker(open).directive == REQUIRES && ParseMarker(close).directive == END
      && OneLine(open) && OneLine(close)
      && Fields(ParseMarker(open).argument) != [] && UnknownAmong(Fields(ParseMarker(open).argument)).None?
      && forall l <- inside :: ParseMarker(l).directive == "" && OneLine(l)
  }

  ghost predicate AcceptedDoc(t: Doc) {
    forall s <- t :: Accepted(s)
  }

  lemma {:induction false} DocIsAccepted(lines: seq<string>, pending: Option<Seg>)
    requires forall l <- lines :: OneLine(l)
    requires pending.Some? ==>
               pending.value.Block? && (forall close | ParseMarker(close).directive == END && OneLine(close) ::
                 Accepted(pending.value.(close := close)))
    requires DocFrom(lines, pending).Some?
    ensures AcceptedDoc(DocFrom(lines, pending).value)
    ensures Flatten(DocFrom(lines, pending).value)
         == (if pending.Some? then [pending.value.open] + pending.value.inside else []) + lines
  {
    hide ParseMarker, Fields, UnknownAmong;
    if lines != [] {
      var m := ParseMarker(lines[0]);
      var rest := lines[1..];
      assert lines[0] in lines;
      if m.directive == REQUIRES {
        DocIsAccepted(rest, Some(Block(lines[0], [], "")));
      } else if m.directive == END {
        DocIsAccepted(rest, None);
        var doc := DocFrom(rest, None).value;
        var b := pending.value.(close := lines[0]);
        assert ([b] + doc)[1..] == doc;
        assert [b.open] + b.inside + [b.close] + rest == [b.open] + b.inside + lines;
      } else if pending.Some? {
        var p := pending.value;
        var p' := p.(inside := p.inside + [lines[0]]);
        forall close | ParseMarker(close).directive == END && OneLine(close)
          ensures Accepted(p'.(close := close))
        {
          assert Accepted(p.(close := close));
        }
        DocIsAccepted(rest, Some(p'));
        assert [p.open] + (p.inside + [lines[0]]) + rest == [p.open] + p.inside + lines;
      } else {
        DocIsAccepted(rest, None);
        var doc := DocFrom(rest, None).value;
        assert ([Plain(lines[0])] + doc)[1..] == doc;
      }
    }
  }

  lemma AcceptedIsShaped(t: Doc)
    requires AcceptedDoc(t)
    ensures Shaped(t)
    ensures forall s <- t :: s.Block? ==> KindOf(s.open) == Open(s.AsGroup().Label())
    ensures forall s <- t :: s.Block? ==> forall f <- s.Features() :: IsWord(f)
  {
    hide ParseMarker, Fields, Join;
    forall s | s in t && s.Block? ensures forall f <- s.Features() :: IsWord(f) {
      FieldsAreWords(ParseMarker(s.open).argument);
    }
    assert forall s <- t :: Accepted(s);
  }
}
