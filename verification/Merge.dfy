/** Carrying a user's settings into a newer settings file: mergeSettings of
    internal/cli/mergeconfig.go. */
module Merge {
  import opened Text
  import opened ShellConf

  /** carriedHeader, line by line. */
  const HEADER_TITLE := "# --- carried over from your " + "previous settings file ---"
  const HEADER_REASON := "# These were set in the file this " + "replaced, and the current one has no such"
  const HEADER_CAUSE := "# key. A key may have been renamed " + "or retired, or these may be scratch"
  const HEADER_EFFECT := "# variables. They are commented out " + "so this file still parses; move what you"
  const HEADER_ADVICE := "# still want to the matching setting " + "above and delete the rest."
  const CARRIED_HEADER := [HEADER_TITLE, HEADER_REASON, HEADER_CAUSE, HEADER_EFFECT, HEADER_ADVICE]

  // --- lines and the names they assign ---------------------------------------------------------

  function Named(line: string, home: string): Option<string> {
    match AssignmentName(line, home)
    case Ok(name) => name
    case Err(_) => None
  }

  /** The setting a commented line is the default of. */
  function CommentedName(line: string, home: string): Option<string> {
    var text := TrimBlanks(line);
    if text != "" && text[0] == '#' then Named(text[1..], home) else None
  }

  predicate AllParse(lines: seq<string>, home: string) {
    forall l <- lines :: AssignmentName(l, home).Ok?
  }

  /** A file that only documents: blanks and comments. */
  predicate NothingActive(lines: seq<string>, home: string) {
    forall l <- lines :: AssignmentName(l, home) == Ok(None)
  }

  /** The last line assigning each name. */
  function Values(lines: seq<string>, home: string): map<string, string> {
    if lines == [] then map[]
    else
      var n := |lines| - 1;
      match Named(lines[n], home)
      case None => Values(lines[..n], home)
      case Some(name) => Values(lines[..n], home)[name := lines[n]]
  }

  /** The names assigned, by first assignment. */
  function Order(lines: seq<string>, home: string): seq<string> {
    if lines == [] then []
    else
      var n := |lines| - 1;
      match Named(lines[n], home)
      case Some(name) => if name in Values(lines[..n], home) then Order(lines[..n], home) else Order(lines[..n], home) + [name]
      case None => Order(lines[..n], home)
  }

  /** The lines that assign a name. */
  function Assigning(lines: seq<string>, name: string, home: string): seq<string> {
    if lines == [] then []
    else
      var n := |lines| - 1;
      Assigning(lines[..n], name, home) + if Named(lines[n], home) == Some(name) then [lines[n]] else []
  }

  // --- the merge ------------------------------------------------------------------------------------

  datatype Placing = Placing(out: seq<string>, placed: set<string>)

  /** Each user line in the place of the first commented default of its name. */
  function Place(shipped: seq<string>, values: map<string, string>, home: string): Placing {
    if shipped == [] then Placing([], {})
    else
      var n := |shipped| - 1;
      var p := Place(shipped[..n], values, home);
      var name := CommentedName(shipped[n], home);
      if name.Some? && name.value in values && name.value !in p.placed
      then Placing(p.out + [values[name.value]], p.placed + {name.value})
      else Placing(p.out + [shipped[n]], p.placed)
  }

  function Carried(order: seq<string>, placed: set<string>): seq<string> {
    if order == [] then []
    else Carried(order[..|order| - 1], placed) + if order[|order| - 1] in placed then [order[|order| - 1]] else []
  }

  function Orphans(order: seq<string>, placed: set<string>): seq<string> {
    if order == [] then []
    else Orphans(order[..|order| - 1], placed) + if order[|order| - 1] in placed then [] else [order[|order| - 1]]
  }

  function OrphanLine(line: string): string { "#" + TrimBlanks(line) }

  function OrphanBlock(orphans: seq<string>, values: map<string, string>): seq<string>
    requires forall n <- orphans :: n in values
  {
    if orphans == [] then [] else [""] + CARRIED_HEADER + OrphanLines(orphans, values)
  }

  function OrphanLines(orphans: seq<string>, values: map<string, string>): (lines: seq<string>)
    requires forall n <- orphans :: n in values
    ensures |lines| == |orphans|
  {
    seq(|orphans|, i requires 0 <= i < |orphans| => OrphanLine(values[orphans[i]]))
  }

  datatype MergeResult = Merged(text: string, carried: seq<string>, orphans: seq<string>)

  lemma {:induction false} OrderIsKeys(lines: seq<string>, home: string)
    ensures forall n :: n in Order(lines, home) <==> n in Values(lines, home)
    ensures forall i, j :: 0 <= i < j < |Order(lines, home)| ==> Order(lines, home)[i] != Order(lines, home)[j]
  {
    hide Named;
    if lines != [] {
      OrderIsKeys(lines[..|lines| - 1], home);
    }
  }

  lemma {:induction false} SplitOrder(order: seq<string>, placed: set<string>)
    ensures forall n :: n in Carried(order, placed) <==> n in order && n in placed
    ensures forall n :: n in Orphans(order, placed) <==> n in order && n !in placed
  {
    if order != [] {
      SplitOrder(order[..|order| - 1], placed);
      assert order == order[..|order| - 1] + [order[|order| - 1]];
    }
  }

  /** The lines of the merged file. */
  function MergedLines(current: seq<string>, shipped: seq<string>, home: string): seq<string> {
    var values := Values(current, home);
    var p := Place(shipped, values, home);
    OrderIsKeys(current, home);
    SplitOrder(Order(current, home), p.placed);
    p.out + OrphanBlock(Orphans(Order(current, home), p.placed), values)
  }

  method NamesIn(lines: seq<string>, home: string) returns (found: Option<(map<string, string>, seq<string>)>)
    ensures found == if AllParse(lines, home) then Some((Values(lines, home), Order(lines, home))) else None
  {
    hide AssignmentName;
    var values: map<string, string>, order: seq<string> := map[], [];
    for i := 0 to |lines|
      invariant AllParse(lines[..i], home)
      invariant values == Values(lines[..i], home) && order == Order(lines[..i], home)
    {
      assert lines[..i + 1][..i] == lines[..i];
      var name := AssignmentName(lines[i], home);
      if name.Err? {
        return None;
      }
      if name.value.Some? {
        if name.value.value !in values {
          order := order + [name.value.value];
        }
        values := values[name.value.value := lines[i]];
      }
    }
    assert lines[..|lines|] == lines;
    return Some((values, order));
  }

  method PlaceLines(shipped: seq<string>, values: map<string, string>, home: string) returns (out: seq<string>, placed: set<string>)
    ensures Placing(out, placed) == Place(shipped, values, home)
  {
    hide Named;
    out, placed := [], {};
    for i := 0 to |shipped|
      invariant Placing(out, placed) == Place(shipped[..i], values, home)
    {
      assert shipped[..i + 1][..i] == shipped[..i];
      var replaced := false;
      var text := TrimBlanks(shipped[i]);
      if text != "" && text[0] == '#' {
        var name := Named(text[1..], home);
        if name.Some? && name.value in values && name.value !in placed {
          out := out + [values[name.value]];
          placed := placed + {name.value};
          replaced := true;
        }
      }
      if !replaced {
        out := out + [shipped[i]];
      }
    }
    assert shipped[..|shipped|] == shipped;
  }

  method Sort(order: seq<string>, placed: set<string>) returns (carried: seq<string>, orphans: seq<string>)
    ensures carried == Carried(order, placed) && orphans == Orphans(order, placed)
  {
    carried, orphans := [], [];
    for i := 0 to |order|
      invariant carried == Carried(order[..i], placed) && orphans == Orphans(order[..i], placed)
    {
      assert order[..i + 1][..i] == order[..i];
      if order[i] in placed {
        carried := carried + [order[i]];
      } else {
        orphans := orphans + [order[i]];
      }
    }
    assert order[..|order|] == order;
  }

  method AppendOrphans(out: seq<string>, orphans: seq<string>, values: map<string, string>) returns (text: string)
    requires forall n <- orphans :: n in values
    ensures text == Join(out + OrphanBlock(orphans, values), "\n")
  {
    hide Join, OrphanLine, CARRIED_HEADER;
    if orphans == [] {
      assert out + [] == out;
      return Join(out, "\n");
    }
    var lines := OrphanLines(orphans, values);
    var all := out + ["", Join(CARRIED_HEADER, "\n")];
    for i := 0 to |orphans|
      invariant all == out + ["", Join(CARRIED_HEADER, "\n")] + lines[..i]
    {
      all := all + [OrphanLine(values[orphans[i]])];
    }
    assert lines[..|orphans|] == lines;
    HeaderIsLines();
    JoinInlines(out + [""], CARRIED_HEADER, lines);
    assert out + ["", Join(CARRIED_HEADER, "\n")] == out + [""] + [Join(CARRIED_HEADER, "\n")];
    assert out + [""] + CARRIED_HEADER + lines == out + ([""] + CARRIED_HEADER + lines);
    return Join(all, "\n");
  }

  lemma HeaderIsLines()
    ensures |CARRIED_HEADER| == 5
  {
  }

  /** mergeSettings: None when the old file has a line that is no assignment. */
  method MergeSettings(current: string, shipped: string, home: string) returns (merge: Option<MergeResult>)
    ensures merge.Some? <==> AllParse(Split(current, '\n'), home)
    ensures merge.Some? ==>
              var lines, base := Split(current, '\n'), Split(shipped, '\n');
              var placed := Place(base, Values(lines, home), home).placed;
              && merge.value.text == Join(MergedLines(lines, base, home), "\n")
              && merge.value.carried == Carried(Order(lines, home), placed)
              && merge.value.orphans == Orphans(Order(lines, home), placed)
  {
    hide AllParse, Values, Order, Place, Split, Join, OrphanBlock, Carried, Orphans;
    var found := NamesIn(Split(current, '\n'), home);
    if found.None? {
      return None;
    }
    var (values, order) := found.value;
    var out, placed := PlaceLines(Split(shipped, '\n'), values, home);
    var carried, orphans := Sort(order, placed);
    OrderIsKeys(Split(current, '\n'), home);
    SplitOrder(order, placed);
    var text := AppendOrphans(out, orphans, values);
    return Some(Merged(text, carried, orphans));
  }

  /** An element that is itself joined lines joins like those lines. */
  lemma {:induction false} JoinInlines(a: seq<string>, b: seq<string>, c: seq<string>)
    requires b != []
    ensures Join(a + [Join(b, "\n")] + c, "\n") == Join(a + b + c, "\n")
  {
    if a == [] {
      assert a + [Join(b, "\n")] + c == [Join(b, "\n")] + c && a + b + c == b + c;
      JoinAppend(b, c);
      JoinAppend([Join(b, "\n")], c);
    } else {
      JoinInlines(a[1..], b, c);
      assert a + [Join(b, "\n")] + c == [a[0]] + (a[1..] + [Join(b, "\n")] + c);
      assert a + b + c == [a[0]] + (a[1..] + b + c);
    }
  }

  lemma {:induction false} JoinAppend(a: seq<string>, b: seq<string>)
    requires a != []
    ensures Join(a + b, "\n") == if b == [] then Join(a, "\n") else Join(a, "\n") + "\n" + Join(b, "\n")
  {
    if b == [] {
      assert a + b == a;
    } else if |a| == 1 {
      assert (a + b)[1..] == b;
    } else {
      assert (a + b)[1..] == a[1..] + b;
      JoinAppend(a[1..], b);
      assert a[0] + "\n" + (Join(a[1..], "\n") + "\n" + Join(b, "\n")) == (a[0] + "\n" + Join(a[1..], "\n")) + "\n" + Join(b, "\n");
    }
  }

  // --- what a list of lines sets ---------------------------------------------------------------------

  /** A line parses, and to the same name, whatever the variables hold. */
  lemma NamedAnyway(line: string, home: string, lookup: Lookup)
    ensures AssignmentName(line, home).Ok? <==> ParseAssignment(line, home, lookup).Ok?
    ensures AssignmentName(line, home).Ok? ==>
              match ParseAssignment(line, home, lookup).value
              case None => Named(line, home) == None
              case Some((name, value)) => Named(line, home) == Some(name)
  {
    hide ParseAssignment;
    DependsOnlyOnRefs(line, home, NoVariables, lookup);
  }

  function ValueOf(line: string, home: string, env: Lookup): string {
    match ParseAssignment(line, home, env)
    case Ok(Some((_, value))) => value
    case _ => ""
  }

  /** A file parses exactly when each line does, and its variables are the names assigned. */
  lemma {:induction false} ParsedNames(lines: seq<string>, home: string, env: Lookup)
    ensures ParseLines(lines, home, env).Ok? <==> AllParse(lines, home)
    ensures AllParse(lines, home) ==> ParseLines(lines, home, env).value.locals.Keys == Values(lines, home).Keys
  {
    hide ParseAssignment, Named, AssignmentName;
    if lines != [] {
      var n := |lines| - 1;
      ParsedNames(lines[..n], home, env);
      assert lines == lines[..n] + [lines[n]];
      if AllParse(lines[..n], home) {
        NamedAnyway(lines[n], home, LookIn(ParseLines(lines[..n], home, env).value.locals, env));
      }
    }
  }

  /** A setting is what its last line says, when that line names nothing the file assigns. */
  lemma {:induction false} ParsedSetting(lines: seq<string>, key: string, home: string, env: Lookup)
    requires AllParse(lines, home) && ParseLines(lines, home, env).Ok?
    ensures var values := ParseLines(lines, home, env).value.values;
            && (key in values <==> key in KEYS && PREFIX + key in Values(lines, home))
            && (key in values && Refs(Values(lines, home)[PREFIX + key], home) !! Values(lines, home).Keys ==>
                  values[key] == ValueOf(Values(lines, home)[PREFIX + key], home, env))
  {
    hide ParseAssignment, Named, AssignmentName, Refs, KEYS;
    if lines != [] {
      var n := |lines| - 1;
      assert lines == lines[..n] + [lines[n]];
      var front := ParseLines(lines[..n], home, env);
      ParsedNames(lines[..n], home, env);
      ParsedSetting(lines[..n], key, home, env);
      var lookup := LookIn(front.value.locals, env);
      NamedAnyway(lines[n], home, lookup);
      KeyOf(key, Named(lines[n], home));
      if Named(lines[n], home) == Some(PREFIX + key) {
        if Refs(lines[n], home) !! Values(lines, home).Keys {
          DependsOnlyOnRefs(lines[n], home, lookup, env);
        }
      }
    }
  }

  lemma KeyOf(key: string, name: Option<string>)
    ensures name.Some? ==> (SettingOf(name.value) == Some(key) <==> name == Some(PREFIX + key))
  {
    if name.Some? && PREFIX <= name.value {
      assert name.value == PREFIX + name.value[|PREFIX|..];
      assert (PREFIX + key)[|PREFIX|..] == key;
    }
  }

  // --- where the lines went ----------------------------------------------------------------------------

  ghost predicate HasHome(shipped: seq<string>, name: string, home: string) {
    exists l <- shipped :: CommentedName(l, home) == Some(name)
  }

  ghost predicate NamesItself(values: map<string, string>, home: string) {
    forall n :: n in values ==> AssignmentName(values[n], home) == Ok(Some(n))
  }

  lemma {:induction false} ValuesNameThemselves(lines: seq<string>, home: string)
    ensures NamesItself(Values(lines, home), home)
    ensures forall n :: n in Values(lines, home) ==> Values(lines, home)[n] in lines
  {
    hide AssignmentName;
    if lines != [] {
      ValuesNameThemselves(lines[..|lines| - 1], home);
      assert lines == lines[..|lines| - 1] + [lines[|lines| - 1]];
    }
  }

  function Only(values: map<string, string>, names: set<string>): map<string, string> {
    map n | n in values && n in names :: values[n]
  }

  /** What is placed is what has a home, each name once. */
  lemma {:induction false} Placed(shipped: seq<string>, values: map<string, string>, home: string)
    ensures forall n :: n in Place(shipped, values, home).placed <==> n in values && HasHome(shipped, n, home)
    ensures forall l <- Place(shipped, values, home).out :: l in shipped || exists n :: n in values && values[n] == l
    ensures |Place(shipped, values, home).out| == |shipped|
    ensures forall n <- Place(shipped, values, home).placed :: values[n] in Place(shipped, values, home).out
  {
    hide CommentedName;
    if shipped != [] {
      var n := |shipped| - 1;
      Placed(shipped[..n], values, home);
      assert shipped == shipped[..n] + [shipped[n]];
      forall name ensures HasHome(shipped, name, home) <==> HasHome(shipped[..n], name, home) || CommentedName(shipped[n], home) == Some(name) {
        assert forall l <- shipped[..n] :: l in shipped;
        assert shipped[n] in shipped;
      }
    }
  }

  lemma OneMore(lines: seq<string>, line: string, home: string)
    ensures Values(lines + [line], home)
         == if Named(line, home).Some? then Values(lines, home)[Named(line, home).value := line] else Values(lines, home)
    ensures AllParse(lines + [line], home) <==> AllParse(lines, home) && AssignmentName(line, home).Ok?
    ensures forall n :: Assigning(lines + [line], n, home)
                     == Assigning(lines, n, home) + if Named(line, home) == Some(n) then [line] else []
  {
    hide AssignmentName;
    assert (lines + [line])[..|lines|] == lines;
  }

  lemma OnlyMore(values: map<string, string>, names: set<string>, n: string)
    requires n in values
    ensures Only(values, names + {n}) == Only(values, names)[n := values[n]]
  {
  }

  lemma {:induction false} PlacedAssign(shipped: seq<string>, values: map<string, string>, home: string)
    requires NothingActive(shipped, home) && NamesItself(values, home)
    ensures var p := Place(shipped, values, home);
            && AllParse(p.out, home) && Values(p.out, home) == Only(values, p.placed)
            && forall n :: Assigning(p.out, n, home) == if n in p.placed && n in values then [values[n]] else []
  {
    hide CommentedName, AssignmentName, AllParse, Values, Assigning, Only;
    if shipped == [] {
      NothingPlaced(values, home);
    } else {
      var n := |shipped| - 1;
      assert forall l <- shipped[..n] :: l in shipped;
      PlacedAssign(shipped[..n], values, home);
      var before := Place(shipped[..n], values, home);
      assert AssignmentName(shipped[n], home) == Ok(None) by { assert shipped[n] in shipped; }
      var name := CommentedName(shipped[n], home);
      if name.Some? && name.value in values && name.value !in before.placed {
        assert AssignmentName(values[name.value], home) == Ok(Some(name.value));
        OneMore(before.out, values[name.value], home);
        OnlyMore(values, before.placed, name.value);
      } else {
        OneMore(before.out, shipped[n], home);
      }
    }
  }

  lemma NothingPlaced(values: map<string, string>, home: string)
    ensures AllParse([], home) && Values([], home) == Only(values, {})
    ensures forall n :: Assigning([], n, home) == []
  {
  }

  lemma {:induction false} InactiveTail(a: seq<string>, b: seq<string>, home: string)
    requires NothingActive(b, home)
    ensures Values(a + b, home) == Values(a, home)
    ensures AllParse(a + b, home) <==> AllParse(a, home)
    ensures forall n :: Assigning(a + b, n, home) == Assigning(a, n, home)
  {
    hide AssignmentName;
    if b == [] {
      assert a + b == a;
    } else {
      var n := |b| - 1;
      assert (a + b)[..|a + b| - 1] == a + b[..n] && (a + b)[|a + b| - 1] == b[n] && b[n] in b;
      assert forall l <- b[..n] :: l in b;
      InactiveTail(a, b[..n], home);
      assert a + b == (a + b[..n]) + [b[n]];
      forall name ensures Assigning(a + b, name, home) == Assigning(a, name, home) {
        assert Assigning(a + b, name, home) == Assigning(a + b[..n], name, home) + [];
      }
    }
  }

  lemma CommentIsInactive(line: string, home: string)
    requires line == "" || line[0] == '#'
    ensures AssignmentName(line, home) == Ok(None)
  {
  }

  lemma BlockIsInactive(orphans: seq<string>, values: map<string, string>, home: string)
    requires forall n <- orphans :: n in values
    ensures NothingActive(OrphanBlock(orphans, values), home)
  {
    hide AssignmentName;
    HeaderIsComment();
    forall l | l in OrphanBlock(orphans, values) ensures AssignmentName(l, home) == Ok(None) {
      CommentIsInactive(l, home);
    }
  }

  lemma HeaderIsComment()
    ensures forall l <- CARRIED_HEADER :: l != "" && l[0] == '#'
  {
  }

  // --- the laws of a merge ---------------------------------------------------------------------------------

  /** The merged lines set exactly the carried names, each once, by the user's own last line. */
  lemma EachCarriedOnce(current: seq<string>, shipped: seq<string>, home: string)
    requires NothingActive(shipped, home)
    ensures var merged, values := MergedLines(current, shipped, home), Values(current, home);
            var placed := Place(shipped, values, home).placed;
            && Values(merged, home) == Only(values, placed)
            && AllParse(merged, home)
            && (forall n :: n in placed <==> n in values && HasHome(shipped, n, home))
            && (forall n :: Assigning(merged, n, home) == if n in values && HasHome(shipped, n, home) then [values[n]] else [])
  {
    hide AssignmentName, Place, Order, Values, Assigning, AllParse, OrphanBlock, Carried, Orphans, HasHome;
    var values := Values(current, home);
    var p := Place(shipped, values, home);
    OrderIsKeys(current, home);
    SplitOrder(Order(current, home), p.placed);
    ValuesNameThemselves(current, home);
    Placed(shipped, values, home);
    PlacedAssign(shipped, values, home);
    var orphans := Orphans(Order(current, home), p.placed);
    BlockIsInactive(orphans, values, home);
    InactiveTail(p.out, OrphanBlock(orphans, values), home);
  }

  /** The user's settings in one of two places: where the new file keeps that setting, or
      commented out below the header. */
  lemma NothingIsLost(current: seq<string>, shipped: seq<string>, home: string, name: string)
    requires name in Values(current, home)
    ensures var merged, line := MergedLines(current, shipped, home), Values(current, home)[name];
            if HasHome(shipped, name, home) then line in merged else OrphanLine(line) in merged
    ensures var placed := Place(shipped, Values(current, home), home).placed;
            && (name in Carried(Order(current, home), placed) <==> HasHome(shipped, name, home))
            && (name in Orphans(Order(current, home), placed) <==> !HasHome(shipped, name, home))
  {
    hide Place, Order, Values, Carried, Orphans, HasHome, CARRIED_HEADER;
    var values := Values(current, home);
    var p := Place(shipped, values, home);
    OrderIsKeys(current, home);
    SplitOrder(Order(current, home), p.placed);
    Placed(shipped, values, home);
    var orphans := Orphans(Order(current, home), p.placed);
    if name in orphans {
      var i :| 0 <= i < |orphans| && orphans[i] == name;
      assert OrphanLines(orphans, values)[i] == OrphanLine(values[name]);
    }
  }

  /** The last line of a split text, when empty, is no line of the file; and sets nothing. */
  lemma FinalBlank(text: string, home: string, env: Lookup)
    ensures ParseLines(ScanLines(text), home, env) == ParseLines(Split(text, '\n'), home, env)
  {
    hide ParseAssignment, Split;
    var parts := Split(text, '\n');
    BlankAssignsNothing(home, env);
    if parts[|parts| - 1] == "" && ParseLines(parts[..|parts| - 1], home, env).Ok? {
      BlankAssignsNothing(home, LookIn(ParseLines(parts[..|parts| - 1], home, env).value.locals, env));
    }
  }

  lemma BlankAssignsNothing(home: string, lookup: Lookup)
    ensures ParseAssignment("", home, lookup) == Ok(None)
  {
  }

  /** Merged lines are lines: reading the merged text gives them back. */
  lemma MergedIsLines(current: seq<string>, shipped: seq<string>, home: string)
    requires shipped != [] && forall l <- current :: OneLine(l)
    requires forall l <- shipped :: OneLine(l)
    ensures Split(Join(MergedLines(current, shipped, home), "\n"), '\n') == MergedLines(current, shipped, home)
  {
    hide Place, Order, Values, Carried, Orphans, HasHome, CARRIED_HEADER, OrphanLine, Split, Join;
    var values := Values(current, home);
    var p := Place(shipped, values, home);
    OrderIsKeys(current, home);
    SplitOrder(Order(current, home), p.placed);
    Placed(shipped, values, home);
    ValuesNameThemselves(current, home);
    HeaderIsOneLine();
    var merged := MergedLines(current, shipped, home);
    var orphans := Orphans(Order(current, home), p.placed);
    forall l | l in OrphanLines(orphans, values) ensures OneLine(l) {
      var i :| 0 <= i < |orphans| && OrphanLines(orphans, values)[i] == l;
      OrphanIsOneLine(values[orphans[i]]);
    }
    forall l | l in merged ensures OneLine(l) {
    }
    SplitOfJoin(merged, '\n');
  }

  lemma Glued(a: string, b: string)
    requires OneLine(a) && OneLine(b)
    ensures OneLine(a + b)
  {
  }

  lemma HeaderTitle()
    ensures OneLine(HEADER_TITLE)
  {
    hide CARRIED_HEADER;
    Glued("# --- carried over from your ", "previous settings file ---");
  }

  lemma HeaderReason()
    ensures OneLine(HEADER_REASON)
  {
    hide CARRIED_HEADER;
    Glued("# These were set in the file this ", "replaced, and the current one has no such");
  }

  lemma HeaderCause()
    ensures OneLine(HEADER_CAUSE)
  {
    hide CARRIED_HEADER;
    Glued("# key. A key may have been renamed ", "or retired, or these may be scratch");
  }

  lemma HeaderEffect()
    ensures OneLine(HEADER_EFFECT)
  {
    hide CARRIED_HEADER;
    Glued("# variables. They are commented out ", "so this file still parses; move what you");
  }

  lemma HeaderAdvice()
    ensures OneLine(HEADER_ADVICE)
  {
    hide CARRIED_HEADER;
    Glued("# still want to the matching setting ", "above and delete the rest.");
  }

  lemma HeaderIsOneLine()
    ensures forall l <- CARRIED_HEADER :: OneLine(l)
  {
    hide OneLine, HEADER_TITLE, HEADER_REASON, HEADER_CAUSE, HEADER_EFFECT, HEADER_ADVICE;
    HeaderTitle();
    HeaderReason();
    HeaderCause();
    HeaderEffect();
    HeaderAdvice();
    forall l | l in CARRIED_HEADER ensures OneLine(l) {
      var i :| 0 <= i < |CARRIED_HEADER| && CARRIED_HEADER[i] == l;
    }
  }

  lemma {:induction false} OrphanIsOneLine(line: string)
    requires OneLine(line)
    ensures OneLine(OrphanLine(line))
    decreases |line|
  {
    if line != "" && (line[0] == ' ' || line[0] == '\t') {
      OrphanIsOneLine(line[1..]);
    }
  }

  /** Whatever parses, merged into whatever parses, parses. */
  lemma MergedParses(current: string, shipped: string, home: string, env: Lookup)
    requires AllParse(Split(current, '\n'), home) && AllParse(Split(shipped, '\n'), home)
    ensures ParseLines(ScanLines(Join(MergedLines(Split(current, '\n'), Split(shipped, '\n'), home), "\n")), home, env).Ok?
  {
    hide AssignmentName, Place, Order, Values, OrphanBlock, Carried, Orphans, HasHome, Split, Join, ScanLines;
    var lines, base := Split(current, '\n'), Split(shipped, '\n');
    JoinOfSplit(current, '\n');
    JoinOfSplit(shipped, '\n');
    var values := Values(lines, home);
    var p := Place(base, values, home);
    OrderIsKeys(lines, home);
    SplitOrder(Order(lines, home), p.placed);
    Placed(base, values, home);
    ValuesNameThemselves(lines, home);
    BlockIsInactive(Orphans(Order(lines, home), p.placed), values, home);
    var merged := MergedLines(lines, base, home);
    ParsedNames(merged, home, env);
    MergedIsLines(lines, base, home);
    FinalBlank(Join(merged, "\n"), home, env);
  }

  /** The settings a file's last word depends on nothing else the file assigns. */
  ghost predicate SelfContained(lines: seq<string>, home: string) {
    forall key <- KEYS :: PREFIX + key in Values(lines, home) ==>
      Refs(Values(lines, home)[PREFIX + key], home) !! Values(lines, home).Keys
  }

  ghost predicate Documents(shipped: seq<string>, home: string) {
    forall key <- KEYS :: HasHome(shipped, PREFIX + key, home)
  }

  /** Settings survive an update in meaning: with a commented default for every known key in
      the new file and no setting that expands another of the file's variables, the merged
      file sets exactly what the old one did. */
  lemma SettingsSurvive(current: string, shipped: string, home: string, env: Lookup)
    requires ParseLines(ScanLines(current), home, env).Ok?
    requires NothingActive(Split(shipped, '\n'), home) && Documents(Split(shipped, '\n'), home)
    requires SelfContained(Split(current, '\n'), home)
    ensures AllParse(Split(current, '\n'), home)
    ensures var merged := ParseLines(ScanLines(Join(MergedLines(Split(current, '\n'), Split(shipped, '\n'), home), "\n")), home, env);
            merged.Ok? && merged.value.values == ParseLines(ScanLines(current), home, env).value.values
  {
    hide AssignmentName, Place, Order, Values, OrphanBlock, Carried, Orphans, HasHome, Split, Join, ScanLines, ParseLines, Refs,
         MergedLines, KEYS, Assigning, AllParse;
    var lines, base := Split(current, '\n'), Split(shipped, '\n');
    JoinOfSplit(current, '\n');
    JoinOfSplit(shipped, '\n');
    FinalBlank(current, home, env);
    ParsedNames(lines, home, env);
    var merged := MergedLines(lines, base, home);
    EachCarriedOnce(lines, base, home);
    MergedIsLines(lines, base, home);
    FinalBlank(Join(merged, "\n"), home, env);
    ParsedNames(merged, home, env);
    var old', new' := ParseLines(lines, home, env).value.values, ParseLines(merged, home, env).value.values;
    forall key ensures (key in old' <==> key in new') && (key in old' ==> old'[key] == new'[key]) {
      ParsedSetting(lines, key, home, env);
      ParsedSetting(merged, key, home, env);
    }
    assert old' == new';
  }

  // --- merging again ---------------------------------------------------------------------------------------

  /** Placing depends only on the values that have a home. */
  lemma {:induction false} PlaceOnly(shipped: seq<string>, values: map<string, string>, names: set<string>, home: string)
    requires Place(shipped, values, home).placed <= names
    ensures Place(shipped, Only(values, names), home) == Place(shipped, values, home)
  {
    hide CommentedName;
    if shipped != [] {
      PlaceOnly(shipped[..|shipped| - 1], values, names, home);
    }
  }

  lemma {:induction false} NoOrphans(order: seq<string>, placed: set<string>)
    ensures Orphans(order, placed) == [] <==> forall n <- order :: n in placed
  {
    if order != [] {
      NoOrphans(order[..|order| - 1], placed);
      assert order == order[..|order| - 1] + [order[|order| - 1]];
    }
  }

  /** A second update: the carried lines again, and no orphans left to carry. */
  lemma MergedAgain(current: seq<string>, shipped: seq<string>, home: string)
    requires NothingActive(shipped, home)
    ensures MergedLines(MergedLines(current, shipped, home), shipped, home) == Place(shipped, Values(current, home), home).out
  {
    hide AssignmentName, Place, Order, Values, Assigning, AllParse, Carried, Orphans, HasHome;
    var values := Values(current, home);
    var p := Place(shipped, values, home);
    var merged := MergedLines(current, shipped, home);
    EachCarriedOnce(current, shipped, home);
    PlaceOnly(shipped, values, p.placed, home);
    OrderIsKeys(merged, home);
    SplitOrder(Order(merged, home), p.placed);
    NoOrphans(Order(merged, home), p.placed);
    assert p.out + [] == p.out;
  }

  /** Updating twice is updating once exactly when nothing was orphaned: the commented-out
      settings of one update do not survive the next. */
  lemma UpdatingTwiceExactly(current: string, shipped: string, home: string)
    requires AllParse(Split(current, '\n'), home) && NothingActive(Split(shipped, '\n'), home)
    ensures var lines, base := Split(current, '\n'), Split(shipped, '\n');
            var once := Join(MergedLines(lines, base, home), "\n");
            Join(MergedLines(Split(once, '\n'), base, home), "\n") == once
            <==> (forall n :: n in Values(lines, home) ==> HasHome(base, n, home))
  {
    hide AssignmentName, Place, Order, Values, Assigning, AllParse, Carried, Orphans, HasHome, Split, Join, NothingActive;
    var lines, base := Split(current, '\n'), Split(shipped, '\n');
    JoinOfSplit(current, '\n');
    JoinOfSplit(shipped, '\n');
    var values := Values(lines, home);
    var p := Place(base, values, home);
    var merged := MergedLines(lines, base, home);
    MergedIsLines(lines, base, home);
    MergedAgain(lines, base, home);
    Placed(base, values, home);
    OrderIsKeys(lines, home);
    SplitOrder(Order(lines, home), p.placed);
    NoOrphans(Order(lines, home), p.placed);
    assert p.out + [] == p.out;
    SplitOfPlaced(lines, base, home);
  }

  lemma SplitOfPlaced(lines: seq<string>, base: seq<string>, home: string)
    requires base != [] && (forall l <- lines :: OneLine(l)) && forall l <- base :: OneLine(l)
    ensures var out := Place(base, Values(lines, home), home).out; Split(Join(out, "\n"), '\n') == out
  {
    hide Place, Values, Split, Join, HasHome;
    Placed(base, Values(lines, home), home);
    ValuesNameThemselves(lines, home);
    SplitOfJoin(Place(base, Values(lines, home), home).out, '\n');
  }

  // --- and where they do not survive -------------------------------------------------------------------------

  lemma {:induction false} WholeName(name: string, from: nat)
    requires from <= |name| && IsName(name)
    ensures NameEnd(name, from) == |name|
    decreases |name| - from
  {
    if from < |name| {
      WholeName(name, from + 1);
    }
  }

  lemma {:induction false} WholeWord(s: string)
    requires forall c <- s :: c != ' ' && c != '\t'
    ensures Unquoted(s) == |s|
  {
    if s != "" {
      assert s[0] in s && forall c <- s[1..] :: c in s;
      WholeWord(s[1..]);
    }
  }

  /** A bare reference reads as the variable it names. */
  lemma ReferenceReads(name: string, home: string, lookup: Lookup)
    requires name != "" && IsName(name)
    ensures ParseValue("$" + name, home, lookup) == Ok((lookup(name), ""))
    ensures ReadValue("$" + name, home) == Ok(Written("$" + name, false, ""))
    ensures PieceRefs(Pieces("$" + name)) == {name}
  {
    var s := "$" + name;
    forall c | c in s ensures c != ' ' && c != '\t' && c != '`' {
      var i :| 0 <= i < |s| && s[i] == c;
      assert i > 0 ==> IsNameByte(name[i - 1], i - 1);
    }
    WholeWord(s);
    assert s[..|s|] == s && s[|s|..] == "" && s[0] == '$';
    assert IsNameByte(name[0], 0);
    WholeName(name, 0);
    assert s[1..] == name && name[..|name|] == name;
    assert FirstPiece(s) == (Ref(name), |s|);
    assert Pieces(s) == [Ref(name)];
    assert Filled([Ref(name)], lookup) == lookup(name) + Filled([], lookup);
    assert lookup(name) + "" == lookup(name);
  }

  const TOOLCHAIN_GO := "PTRBOX_GO"

  lemma SettingReference(name: string, home: string, lookup: Lookup)
    requires name != "" && IsName(name)
    ensures var line := TOOLCHAIN_GO + "=" + ("$" + name);
            ParseAssignment(line, home, lookup) == Ok(Some((TOOLCHAIN_GO, lookup(name)))) && Refs(line, home) == {name}
  {
    hide ParseValue, ReadValue, Pieces, PieceRefs;
    ReferenceReads(name, home, lookup);
    var written := "$" + name;
    var line := TOOLCHAIN_GO + "=" + written;
    assert line[0] == 'P';
    assert TrimBlanks(line) == line;
    var word := "export ";
    assert word[0] == 'e';
    assert '=' !in TOOLCHAIN_GO;
    IndexOfAt(TOOLCHAIN_GO, '=', written);
    assert TOOLCHAIN_GO + ['='] + written == line;
    assert line[..9] == TOOLCHAIN_GO && line[10..] == written;
    assert IsName(TOOLCHAIN_GO);
  }

  /** A scratch variable, and a setting that expands it. */
  function ScratchFile(scratch: string, value: string): seq<string> {
    [scratch + "=" + Spelling(value), TOOLCHAIN_GO + "=" + ("$" + scratch)]
  }

  lemma GoIsSetting()
    ensures "GO" in KEYS && PREFIX + "GO" == TOOLCHAIN_GO && SettingOf(TOOLCHAIN_GO) == Some("GO")
  {
    assert KEYS[15] == "GO";
  }

  lemma ScratchFileSets(scratch: string, value: string, home: string, env: Lookup)
    requires scratch != "" && IsName(scratch) && !(PREFIX <= scratch) && '`' !in value
    ensures var p := ParseLines(ScratchFile(scratch, value), home, env);
            p.Ok? && p.value.values == map["GO" := value]
    ensures Values(ScratchFile(scratch, value), home)
         == map[scratch := ScratchFile(scratch, value)[0], TOOLCHAIN_GO := ScratchFile(scratch, value)[1]]
  {
    hide ParseAssignment, Refs, Spelling, KEYS, IsName;
    var current := ScratchFile(scratch, value);
    assert current[..1] == [current[0]] && current[..1][..0] == [];
    GoIsSetting();
    AssignmentReadsBack(scratch, value, home, LookIn(map[], env));
    AssignmentReadsBack(scratch, value, home, NoVariables);
    SettingReference(scratch, home, LookIn(map[scratch := value], env));
    SettingReference(scratch, home, NoVariables);
    assert Values(current[..1], home) == map[scratch := current[0]];
    assert ParseLines(current[..1][..0], home, env) == Ok(Parsed(map[], map[], []));
    assert SettingOf(scratch) == None;
    assert ParseLines(current[..1], home, env) == Ok(Parsed(map[scratch := value], map[], []));
    assert current[|current| - 1] == current[1];
  }

  /** A setting that expands a scratch variable of the same file loses it: the variable is
      commented out, and the setting falls back to the environment. */
  lemma ScratchVariableIsLost(scratch: string, value: string, shipped: seq<string>, home: string, env: Lookup)
    requires scratch != "" && IsName(scratch) && !(PREFIX <= scratch) && '`' !in value && env(scratch) != value
    requires NothingActive(shipped, home) && HasHome(shipped, TOOLCHAIN_GO, home) && !HasHome(shipped, scratch, home)
    ensures var current := ScratchFile(scratch, value);
            var was, now := ParseLines(current, home, env), ParseLines(MergedLines(current, shipped, home), home, env);
            && was.Ok? && "GO" in was.value.values && was.value.values["GO"] == value
            && now.Ok? && "GO" in now.value.values && now.value.values["GO"] == env(scratch) != value
  {
    hide ParseAssignment, Refs, MergedLines, HasHome, ScratchFile, NothingActive, Place, KEYS, ParseLines, Values, IsName;
    var current := ScratchFile(scratch, value);
    var merged := MergedLines(current, shipped, home);
    SecondLine(scratch, value);
    GoIsSetting();
    ScratchFileSets(scratch, value, home, env);
    EachCarriedOnce(current, shipped, home);
    ParsedNames(merged, home, env);
    ParsedSetting(merged, "GO", home, env);
    SettingReference(scratch, home, env);
  }

  lemma SecondLine(scratch: string, value: string)
    ensures |ScratchFile(scratch, value)| == 2 && ScratchFile(scratch, value)[1] == TOOLCHAIN_GO + "=" + ("$" + scratch)
  {
  }
}
