/** The allowlist language of internal/proxy/vmaccess.go and internal/proxy/reconcile.go:
    `# @requires <features>` ... `# @end` groups, the seed a VM starts from, and the
    reconciliation of a list that already exists. Each loop of the program is a method
    proved equal to the function the theorems are about. */
module Allowlist {
  import opened Text

  const REQUIRES := "@requires"
  const END := "@end"

  /** config.Features(): what a marker may name. */
  const FEATURES := ["go", "node", "opencode", "uv", "playwright"]

  /** The features a VM has: config.Config.Wants is membership. */
  type Features = set<string>

  datatype Marker = Marker(directive: string, argument: string)

  datatype TemplateError =
    | Nested
    | NoFeature
    | UnknownFeature(name: string)
    | EndWithoutGroup
    | UnknownDirective(directive: string)
    | NeverClosed

  /** One group of the template. The program keeps its domains beside its lines; they are
      always the entries of the lines. */
  datatype Group = Group(features: seq<string>, lines: seq<string>) {
    function Label(): string { Join(features, " ") }

    function Domains(): seq<string> { EntryDomains(lines) }

    predicate WantedBy(wants: Features) { exists f <- features :: f in wants }
  }

  datatype Change =
    | Unclosed(tag: string)
    | Added(tag: string, domains: seq<string>)
    | Restored(tag: string, domains: seq<string>)
    | Removed(tag: string, domains: seq<string>)

  // --- one line --------------------------------------------------------------------

  /** parseMarker */
  function ParseMarker(line: string): Marker {
    var text := TrimSpace(line);
    if !("#" <= text) then Marker("", "")
    else
      var rest := TrimSpace(text[1..]);
      if !("@" <= rest) then Marker("", "")
      else
        var k := IndexOf(rest, ' ');
        Marker(rest[..k], if k < |rest| then TrimSpace(rest[k + 1..]) else "")
  }

  /** domainOf: the entry on a line, "" for a comment or a blank. */
  function DomainOf(line: string): string {
    var text := TrimSpace(line);
    if text == "" || "#" <= text then ""
    else
      TrimmedHasField(line);
      Fields(text)[0]
  }

  lemma TrimmedHasField(line: string)
    ensures TrimSpace(line) != "" ==> Fields(TrimSpace(line)) != []
  {
    TrimLeftHead(line);
    if TrimLeft(line) != "" {
      TrimRightKeepsHead(TrimLeft(line));
    }
  }

  lemma TrimLeftHead(s: string)
    ensures TrimLeft(s) != "" ==> !IsSpace(TrimLeft(s)[0])
  {
  }

  predicate IsNote(line: string) {
    "# (omitted:" <= TrimSpace(line) || "# (added:" <= TrimSpace(line)
  }

  function OmittedNote(features: seq<string>): string {
    "# (omitted: this VM has no " + Join(features, " or ") + ")"
  }

  function AddedNote(features: seq<string>): string {
    "# (added: this VM now has " + Join(features, " or ") + ")"
  }

  /** What a line is to findGroup: the start of a tagged group, an end, or neither. */
  datatype Kind = Open(tag: string) | Close | Other

  function KindOf(line: string): Kind {
    var m := ParseMarker(line);
    if m.directive == REQUIRES then Open(Join(Fields(m.argument), " "))
    else if m.directive == END then Close
    else Other
  }

  // --- lists of lines ----------------------------------------------------------------

  function EntryDomains(lines: seq<string>): seq<string> {
    if lines == [] then []
    else (if DomainOf(lines[0]) == "" then [] else [DomainOf(lines[0])]) + EntryDomains(lines[1..])
  }

  function NonNotes(lines: seq<string>): seq<string> {
    if lines == [] then []
    else (if IsNote(lines[0]) then [] else [lines[0]]) + NonNotes(lines[1..])
  }

  /** The lines whose entry is not one of `domains`. */
  function Without(lines: seq<string>, domains: seq<string>): seq<string> {
    if lines == [] then []
    else (if DomainOf(lines[0]) != "" && DomainOf(lines[0]) in domains then [] else [lines[0]])
         + Without(lines[1..], domains)
  }

  /** The entries that Without leaves out. */
  function Dropped(lines: seq<string>, domains: seq<string>): seq<string> {
    if lines == [] then []
    else (if DomainOf(lines[0]) != "" && DomainOf(lines[0]) in domains then [DomainOf(lines[0])] else [])
         + Dropped(lines[1..], domains)
  }

  /** The lines of a group whose entry `held` does not already contain. */
  function Missing(held: seq<string>, lines: seq<string>): seq<string> {
    if lines == [] then []
    else (if DomainOf(lines[0]) == "" || DomainOf(lines[0]) !in held then [lines[0]] else [])
         + Missing(held, lines[1..])
  }

  function FirstOpen(lines: seq<string>, tag: string): (k: nat)
    ensures k <= |lines|
    ensures k < |lines| ==> KindOf(lines[k]) == Open(tag)
    ensures forall i :: 0 <= i < k ==> KindOf(lines[i]) != Open(tag)
  {
    hide KindOf;
    if lines == [] || KindOf(lines[0]) == Open(tag) then 0 else 1 + FirstOpen(lines[1..], tag)
  }

  function FirstMarker(lines: seq<string>): (k: nat)
    ensures k <= |lines|
    ensures k < |lines| ==> KindOf(lines[k]) != Other
    ensures forall i :: 0 <= i < k ==> KindOf(lines[i]) == Other
  {
    hide KindOf;
    if lines == [] || KindOf(lines[0]) != Other then 0 else 1 + FirstMarker(lines[1..])
  }

  /** findGroup: the marker line and its end, -1 for each that is missing. */
  function FindGroup(lines: seq<string>, tag: string): (at: (int, int))
    ensures -1 <= at.0 < |lines| && -1 <= at.1 < |lines|
    ensures at.1 >= 0 ==> 0 <= at.0 < at.1
  {
    var start: int := FirstOpen(lines, tag);
    if start == |lines| then (-1, -1)
    else
      var end: int := start + 1 + FirstMarker(lines[start + 1..]);
      if end < |lines| && KindOf(lines[end]) == Close then (start, end) else (start, -1)
  }

  /** FindGroup answers with the first marker of that name and, when the next marker is
      an end, that end. */
  lemma FindGroupIs(lines: seq<string>, tag: string, start: nat, stop: nat)
    requires start < stop <= |lines|
    requires KindOf(lines[start]) == Open(tag)
    requires forall i :: 0 <= i < start ==> KindOf(lines[i]) != Open(tag)
    requires forall i :: start < i < stop ==> KindOf(lines[i]) == Other
    requires stop < |lines| ==> KindOf(lines[stop]) != Other
    ensures FindGroup(lines, tag) == (start, if stop < |lines| && KindOf(lines[stop]) == Close then stop else -1)
  {
    hide KindOf;
    var k := FirstOpen(lines, tag);
    assert k == start;
    var rest := lines[start + 1..];
    var m := FirstMarker(rest);
    assert forall i :: 0 <= i < |rest| ==> rest[i] == lines[start + 1 + i];
    assert start + 1 + m == stop;
  }

  method LocateGroup(lines: seq<string>, tag: string) returns (start: int, end: int)
    ensures (start, end) == FindGroup(lines, tag)
  {
    hide ParseMarker, Fields, Join;
    start, end := -1, -1;
    for i := 0 to |lines|
      invariant -1 <= start < i && end == -1
      invariant start < 0 ==> forall j :: 0 <= j < i ==> KindOf(lines[j]) != Open(tag)
      invariant start >= 0 ==> KindOf(lines[start]) == Open(tag)
      invariant start >= 0 ==> forall j :: 0 <= j < start ==> KindOf(lines[j]) != Open(tag)
      invariant start >= 0 ==> forall j :: start < j < i ==> KindOf(lines[j]) == Other
    {
      var m := ParseMarker(lines[i]);
      ghost var kind := KindOf(lines[i]);
      if start < 0 {
        if m.directive == REQUIRES && Join(Fields(m.argument), " ") == tag {
          start := i;
        }
      } else if m.directive == END {
        FindGroupIs(lines, tag, start, i);
        return start, i;
      } else if m.directive == REQUIRES {
        FindGroupIs(lines, tag, start, i);
        return start, -1;
      }
    }
    if start >= 0 {
      FindGroupIs(lines, tag, start, |lines|);
    }
  }

  method ListEntries(lines: seq<string>) returns (out: seq<string>)
    ensures out == EntryDomains(lines)
  {
    out := [];
    for i := 0 to |lines|
      invariant out == EntryDomains(lines[..i])
    {
      assert lines[..i + 1] == lines[..i] + [lines[i]];
      EntriesAppend(lines[..i], [lines[i]]);
      var d := DomainOf(lines[i]);
      if d != "" {
        out := out + [d];
      }
    }
    assert lines[..|lines|] == lines;
  }

  // Each way of picking lines works line by line.

  lemma {:induction false} EntriesAppend(a: seq<string>, b: seq<string>)
    ensures EntryDomains(a + b) == EntryDomains(a) + EntryDomains(b)
  {
    hide DomainOf;
    if a == [] {
      assert a + b == b;
    } else {
      assert (a + b)[1..] == a[1..] + b;
      EntriesAppend(a[1..], b);
    }
  }

  lemma {:induction false} NonNotesAppend(a: seq<string>, b: seq<string>)
    ensures NonNotes(a + b) == NonNotes(a) + NonNotes(b)
  {
    hide IsNote;
    if a == [] {
      assert a + b == b;
    } else {
      assert (a + b)[1..] == a[1..] + b;
      NonNotesAppend(a[1..], b);
    }
  }

  lemma {:induction false} WithoutAppend(a: seq<string>, b: seq<string>, domains: seq<string>)
    ensures Without(a + b, domains) == Without(a, domains) + Without(b, domains)
  {
    hide DomainOf;
    if a == [] {
      assert a + b == b;
    } else {
      assert (a + b)[1..] == a[1..] + b;
      WithoutAppend(a[1..], b, domains);
    }
  }

  lemma {:induction false} DroppedAppend(a: seq<string>, b: seq<string>, domains: seq<string>)
    ensures Dropped(a + b, domains) == Dropped(a, domains) + Dropped(b, domains)
  {
    hide DomainOf;
    if a == [] {
      assert a + b == b;
    } else {
      assert (a + b)[1..] == a[1..] + b;
      DroppedAppend(a[1..], b, domains);
    }
  }

  lemma {:induction false} MissingAppend(a: seq<string>, b: seq<string>, held: seq<string>)
    ensures Missing(held, a + b) == Missing(held, a) + Missing(held, b)
  {
    hide DomainOf;
    if a == [] {
      assert a + b == b;
    } else {
      assert (a + b)[1..] == a[1..] + b;
      MissingAppend(a[1..], b, held);
    }
  }

  // --- the seed ------------------------------------------------------------------------

  function UnknownAmong(features: seq<string>): Option<string> {
    if features == [] then None
    else if features[0] !in FEATURES then Some(features[0])
    else UnknownAmong(features[1..])
  }

  /** SeedFor from one line on, inside a group or not, keeping its entries or not. */
  function SeedFrom(lines: seq<string>, wants: Features, inside: bool, keep: bool): Result<seq<string>, TemplateError> {
    if lines == [] then (if inside then Err(NeverClosed) else Ok([]))
    else
      var m := ParseMarker(lines[0]);
      if m.directive == REQUIRES then
        var features := Fields(m.argument);
        if inside then Err(Nested)
        else if features == [] then Err(NoFeature)
        else if UnknownAmong(features).Some? then Err(UnknownFeature(UnknownAmong(features).value))
        else
          var kept := Group(features, []).WantedBy(wants);
          Emit([lines[0]] + (if kept then [] else [OmittedNote(features)]), SeedFrom(lines[1..], wants, true, kept))
      else if m.directive == END then
        if !inside then Err(EndWithoutGroup)
        else Emit([lines[0]], SeedFrom(lines[1..], wants, false, true))
      else if m.directive != "" then Err(UnknownDirective(m.directive))
      else Emit(if keep then [lines[0]] else [], SeedFrom(lines[1..], wants, inside, keep))
  }

  function Emit(out: seq<string>, rest: Result<seq<string>, TemplateError>): Result<seq<string>, TemplateError> {
    if rest.Ok? then Ok(out + rest.value) else rest
  }

  /** SeedFor on the template's lines. */
  function SeedLines(template: seq<string>, wants: Features): Result<seq<string>, TemplateError> {
    SeedFrom(template, wants, false, true)
  }

  method SeedFor(template: string, wants: Features) returns (seed: Result<string, TemplateError>)
    ensures match SeedLines(ScanLines(template), wants)
            case Ok(lines) => seed == Ok(Unlines(lines))
            case Err(e) => seed == Err(e)
  {
    hide ParseMarker, ScanLines, Fields, OmittedNote;
    var lines := ScanLines(template);
    var out := "";
    ghost var emitted: seq<string> := [];
    var inside, keep := false, true;
    assert lines[0..] == lines;
    EmitEmit([], [], SeedLines(lines, wants));
    for i := 0 to |lines|
      invariant out == Unlines(emitted)
      invariant SeedLines(lines, wants) == Emit(emitted, SeedFrom(lines[i..], wants, inside, keep))
    {
      assert lines[i..][0] == lines[i] && lines[i..][1..] == lines[i + 1..];
      var text := lines[i];
      var m := ParseMarker(text);
      var written: seq<string> := [];
      ghost var rest := SeedFrom(lines[i..], wants, inside, keep);
      if m.directive == REQUIRES {
        var runtimes := Fields(m.argument);
        if inside {
          return Err(Nested);
        }
        if runtimes == [] {
          return Err(NoFeature);
        }
        var unknown := FindUnknown(runtimes);
        if unknown.Some? {
          return Err(UnknownFeature(unknown.value));
        }
        inside, keep := true, Group(runtimes, []).WantedBy(wants);
        written := [text] + if keep then [] else [OmittedNote(runtimes)];
      } else if m.directive == END {
        if !inside {
          return Err(EndWithoutGroup);
        }
        inside, keep := false, true;
        written := [text];
      } else if m.directive != "" {
        return Err(UnknownDirective(m.directive));
      } else if keep {
        written := [text];
      }
      assert rest == Emit(written, SeedFrom(lines[i + 1..], wants, inside, keep));
      EmitEmit(emitted, written, SeedFrom(lines[i + 1..], wants, inside, keep));
      UnlinesAppend(emitted, written);
      emitted := emitted + written;
      out := out + Unlines(written);
    }
    assert lines[|lines|..] == [];
    if inside {
      return Err(NeverClosed);
    }
    assert emitted + [] == emitted;
    return Ok(out);
  }

  method FindUnknown(features: seq<string>) returns (unknown: Option<string>)
    ensures unknown == UnknownAmong(features)
  {
    for j := 0 to |features|
      invariant UnknownAmong(features) == UnknownAmong(features[j..])
    {
      if features[j] !in FEATURES {
        return Some(features[j]);
      }
    }
    return None;
  }

  lemma EmitEmit(a: seq<string>, b: seq<string>, rest: Result<seq<string>, TemplateError>)
    ensures Emit(a, Emit(b, rest)) == Emit(a + b, rest)
    ensures Emit([], rest) == rest
  {
    if rest.Ok? {
      assert [] + rest.value == rest.value;
      assert a + (b + rest.value) == a + b + rest.value;
    }
  }

  /** templateGroups from one line on, with the group being read, if any. */
  function GroupsFrom(lines: seq<string>, current: Option<Group>): Result<seq<Group>, TemplateError> {
    if lines == [] then (if current.Some? then Err(NeverClosed) else Ok([]))
    else
      var m := ParseMarker(lines[0]);
      if m.directive == REQUIRES then
        if current.Some? then Err(Nested) else GroupsFrom(lines[1..], Some(Group(Fields(m.argument), [])))
      else if m.directive == END then
        if current.None? then Err(EndWithoutGroup) else PrependGroup([current.value], GroupsFrom(lines[1..], None))
      else
        GroupsFrom(lines[1..], if current.None? then None
                               else Some(current.value.(lines := current.value.lines + [lines[0]])))
  }

  function PrependGroup(g: seq<Group>, rest: Result<seq<Group>, TemplateError>): Result<seq<Group>, TemplateError> {
    if rest.Ok? then Ok(g + rest.value) else rest
  }

  method TemplateGroups(template: string) returns (groups: Result<seq<Group>, TemplateError>)
    ensures groups == GroupsFrom(ScanLines(template), None)
  {
    hide ParseMarker, ScanLines, Fields, OmittedNote;
    var lines := ScanLines(template);
    var found: seq<Group> := [];
    var current: Option<Group> := None;
    assert lines[0..] == lines;
    PrependPrepend([], [], GroupsFrom(lines, None));
    for i := 0 to |lines|
      invariant GroupsFrom(lines, None) == PrependGroup(found, GroupsFrom(lines[i..], current))
    {
      assert lines[i..][0] == lines[i] && lines[i..][1..] == lines[i + 1..];
      var m := ParseMarker(lines[i]);
      ghost var before := found;
      if m.directive == REQUIRES {
        if current.Some? {
          return Err(Nested);
        }
        current := Some(Group(Fields(m.argument), []));
      } else if m.directive == END {
        if current.None? {
          return Err(EndWithoutGroup);
        }
        found := found + [current.value];
        current := None;
      } else if current.Some? {
        current := Some(current.value.(lines := current.value.lines + [lines[i]]));
      }
      PrependPrepend(before, found[|before|..], GroupsFrom(lines[i + 1..], current));
    }
    assert lines[|lines|..] == [];
    if current.Some? {
      return Err(NeverClosed);
    }
    assert found + [] == found;
    return Ok(found);
  }

  lemma PrependPrepend(a: seq<Group>, b: seq<Group>, rest: Result<seq<Group>, TemplateError>)
    ensures PrependGroup(a, PrependGroup(b, rest)) == PrependGroup(a + b, rest)
    ensures PrependGroup([], rest) == rest
  {
    if rest.Ok? {
      assert [] + rest.value == rest.value;
      assert a + (b + rest.value) == a + b + rest.value;
    }
  }

  // --- reconciling -----------------------------------------------------------------------

  /** What becomes of the lines inside a group. */
  function Adjust(inside: seq<string>, g: Group, wanted: bool): seq<string> {
    if wanted then
      if EntryDomains(inside) == [] then NonNotes(inside) + g.lines else inside
    else
      var kept := Without(inside, g.Domains());
      if Dropped(inside, g.Domains()) == [] then inside
      else if EntryDomains(kept) == [] && !(exists l <- kept :: IsNote(l)) then [OmittedNote(g.features)] + kept
      else kept
  }

  function Appended(lines: seq<string>, g: Group): seq<string> {
    ["", "# " + REQUIRES + " " + g.Label(), AddedNote(g.features)] + Missing(EntryDomains(lines), g.lines) + ["# " + END]
  }

  /** One turn of reconcile's loop. */
  function Step(lines: seq<string>, g: Group, wants: Features): seq<string> {
    var (start, end) := FindGroup(lines, g.Label());
    if start < 0 then
      if g.WantedBy(wants) && EntryDomains(Missing(EntryDomains(lines), g.lines)) != []
      then lines + Appended(lines, g) else lines
    else if end < 0 then lines
    else lines[..start + 1] + Adjust(lines[start + 1..end], g, g.WantedBy(wants)) + lines[end..]
  }

  /** What that turn reports. */
  function StepChanges(lines: seq<string>, g: Group, wants: Features): seq<Change> {
    var (start, end) := FindGroup(lines, g.Label());
    var missing := EntryDomains(Missing(EntryDomains(lines), g.lines));
    if start < 0 then
      if g.WantedBy(wants) && missing != [] then [Added(g.Label(), missing)] else []
    else if end < 0 then [Unclosed(g.Label())]
    else
      var inside := lines[start + 1..end];
      if g.WantedBy(wants) then
        if EntryDomains(inside) == [] then [Restored(g.Label(), g.Domains())] else []
      else if Dropped(inside, g.Domains()) == [] then []
      else [Removed(g.Label(), Dropped(inside, g.Domains()))]
  }

  function Reconciled(lines: seq<string>, groups: seq<Group>, wants: Features): seq<string> {
    if groups == [] then lines
    else Step(Reconciled(lines, groups[..|groups| - 1], wants), groups[|groups| - 1], wants)
  }

  function ReconcileChanges(lines: seq<string>, groups: seq<Group>, wants: Features): seq<Change> {
    if groups == [] then []
    else
      var before := groups[..|groups| - 1];
      ReconcileChanges(lines, before, wants)
      + StepChanges(Reconciled(lines, before, wants), groups[|groups| - 1], wants)
  }

  /** strings.TrimRight(body, "\n") */
  function TrimNewlines(s: string): string {
    if s != "" && s[|s| - 1] == '\n' then TrimNewlines(s[..|s| - 1]) else s
  }

  /** The lines reconcile works on. */
  function BodyLines(body: string): seq<string> {
    Split(TrimNewlines(body), '\n')
  }

  function ReconciledText(body: string, groups: seq<Group>, wants: Features): string {
    Join(Reconciled(BodyLines(body), groups, wants), "\n") + "\n"
  }

  method Turn(lines: seq<string>, g: Group, wants: Features) returns (updated: seq<string>, changes: seq<Change>)
    ensures updated == Step(lines, g, wants)
    ensures changes == StepChanges(lines, g, wants)
  {
    hide ParseMarker, DomainOf, IsNote, FindGroup, EntryDomains, Without, Dropped, Missing, NonNotes, Join;
    updated, changes := lines, [];
    var wanted := g.WantedBy(wants);
    var start, end := LocateGroup(lines, g.Label());
    if start >= 0 && end < 0 {
      changes := [Unclosed(g.Label())];
    } else if start < 0 {
      if wanted {
        var held := ListEntries(lines);
        var missing := MissingLines(held, g.lines);
        var entries := ListEntries(missing);
        if entries != [] {
          updated := lines + (["", "# " + REQUIRES + " " + g.Label(), AddedNote(g.features)] + missing + ["# " + END]);
          changes := [Added(g.Label(), entries)];
        }
      }
    } else {
      var inside := lines[start + 1..end];
      assert lines == lines[..start + 1] + inside + lines[end..];
      var entries := ListEntries(inside);
      if wanted && entries == [] {
        var kept := DropNotes(inside);
        updated := lines[..start + 1] + (kept + g.lines) + lines[end..];
        changes := [Restored(g.Label(), g.Domains())];
      } else if !wanted && entries != [] {
        var kept, removed := Partition(inside, g.Domains());
        if removed != [] {
          var left := ListEntries(kept);
          if left == [] && !(exists l <- kept :: IsNote(l)) {
            kept := [OmittedNote(g.features)] + kept;
          }
          updated := lines[..start + 1] + kept + lines[end..];
          changes := [Removed(g.Label(), removed)];
        }
      } else if !wanted {
        NothingToDrop(inside, g.Domains());
      }
    }
  }

  method Reconcile(body: string, groups: seq<Group>, wants: Features) returns (updated: string, changes: seq<Change>)
    ensures updated == ReconciledText(body, groups, wants)
    ensures changes == ReconcileChanges(BodyLines(body), groups, wants)
  {
    hide Step, StepChanges;
    var lines := Split(TrimNewlines(body), '\n');
    changes := [];
    for n := 0 to |groups|
      invariant lines == Reconciled(BodyLines(body), groups[..n], wants)
      invariant changes == ReconcileChanges(BodyLines(body), groups[..n], wants)
    {
      assert groups[..n + 1][..n] == groups[..n];
      var said: seq<Change>;
      lines, said := Turn(lines, groups[n], wants);
      changes := changes + said;
    }
    assert groups[..|groups|] == groups;
    updated := Join(lines, "\n") + "\n";
  }

  lemma NothingToDrop(lines: seq<string>, domains: seq<string>)
    requires EntryDomains(lines) == []
    ensures Dropped(lines, domains) == []
  {
  }

  method MissingLines(held: seq<string>, lines: seq<string>) returns (missing: seq<string>)
    ensures missing == Missing(held, lines)
  {
    missing := [];
    for i := 0 to |lines|
      invariant missing == Missing(held, lines[..i])
    {
      assert lines[..i + 1] == lines[..i] + [lines[i]];
      MissingAppend(lines[..i], [lines[i]], held);
      if DomainOf(lines[i]) == "" || DomainOf(lines[i]) !in held {
        missing := missing + [lines[i]];
      }
    }
    assert lines[..|lines|] == lines;
  }

  method DropNotes(lines: seq<string>) returns (kept: seq<string>)
    ensures kept == NonNotes(lines)
  {
    kept := [];
    for i := 0 to |lines|
      invariant kept == NonNotes(lines[..i])
    {
      assert lines[..i + 1] == lines[..i] + [lines[i]];
      NonNotesAppend(lines[..i], [lines[i]]);
      if !IsNote(lines[i]) {
        kept := kept + [lines[i]];
      }
    }
    assert lines[..|lines|] == lines;
  }

  method Partition(lines: seq<string>, domains: seq<string>) returns (kept: seq<string>, removed: seq<string>)
    ensures kept == Without(lines, domains)
    ensures removed == Dropped(lines, domains)
  {
    kept, removed := [], [];
    for i := 0 to |lines|
      invariant kept == Without(lines[..i], domains)
      invariant removed == Dropped(lines[..i], domains)
    {
      assert lines[..i + 1] == lines[..i] + [lines[i]];
      WithoutAppend(lines[..i], [lines[i]], domains);
      DroppedAppend(lines[..i], [lines[i]], domains);
      var d := DomainOf(lines[i]);
      if d != "" && d in domains {
        removed := removed + [d];
      } else {
        kept := kept + [lines[i]];
      }
    }
    assert lines[..|lines|] == lines;
  }
}
