/** Where a merge puts each line: at the first commented default of its name, and nowhere else; the
    orphans in the order of the old file, below their header. */
module MergePlaces {
  import opened Text
  import opened Merge

  /** The first line of `lines` that has `name` under `naming`. */
  ghost predicate FirstAt(lines: seq<string>, k: nat, name: string, naming: string -> Option<string>) {
    && k < |lines| && naming(lines[k]) == Some(name)
    && forall j :: 0 <= j < k ==> naming(lines[j]) != Some(name)
  }

  ghost predicate LastAt(lines: seq<string>, k: nat, name: string, home: string) {
    && k < |lines| && Named(lines[k], home) == Some(name)
    && forall j :: k < j < |lines| ==> Named(lines[j], home) != Some(name)
  }

  ghost function Commented(home: string): string -> Option<string> {
    (line: string) => CommentedName(line, home)
  }

  ghost function Assigned(home: string): string -> Option<string> {
    (line: string) => Named(line, home)
  }

  // --- which lines count -----------------------------------------------------------------------

  ghost predicate Blanks(s: string) {
    forall c <- s :: c == ' ' || c == '\t'
  }

  lemma {:induction false} BlanksGo(blanks: string, text: string)
    requires Blanks(blanks) && (text == "" || !Blanks([text[0]]))
    ensures TrimBlanks(blanks + text) == text
  {
    if blanks == "" {
      assert blanks + text == text;
      assert text != "" ==> text[0] in [text[0]];
    } else {
      assert blanks[0] in blanks && (blanks + text)[1..] == blanks[1..] + text;
      assert forall c <- blanks[1..] :: c in blanks;
      BlanksGo(blanks[1..], text);
    }
  }

  /** A default is commented out by one hash, wherever on the line it stands. */
  lemma CommentedReads(blanks: string, rest: string, home: string)
    requires Blanks(blanks)
    ensures CommentedName(blanks + "#" + rest, home) == Named(rest, home)
  {
    hide Named;
    var text := "#" + rest;
    assert !Blanks(['#']) by { assert '#' in ['#']; }
    BlanksGo(blanks, text);
    assert blanks + "#" + rest == blanks + text && text[1..] == rest;
  }

  lemma ActiveIsNoDefault(blanks: string, text: string, home: string)
    requires Blanks(blanks) && (text == "" || (!Blanks([text[0]]) && text[0] != '#'))
    ensures CommentedName(blanks + text, home) == None
  {
    BlanksGo(blanks, text);
  }

  // --- what is taken from the old file ------------------------------------------------------------

  /** The value kept for a name is its last line. */
  lemma {:induction false} LastLineWins(lines: seq<string>, k: nat, name: string, home: string)
    requires LastAt(lines, k, name, home)
    ensures name in Values(lines, home) && Values(lines, home)[name] == lines[k]
  {
    hide Named;
    var n := |lines| - 1;
    if k < n {
      assert LastAt(lines[..n], k, name, home);
      LastLineWins(lines[..n], k, name, home);
    }
  }

  lemma {:induction false} NamedSomewhere(lines: seq<string>, name: string, home: string)
    ensures name in Values(lines, home) <==> exists k :: FirstAt(lines, k, name, Assigned(home))
  {
    hide Named;
    if lines != [] {
      var n := |lines| - 1;
      NamedSomewhere(lines[..n], name, home);
      if name in Values(lines[..n], home) {
        var k :| FirstAt(lines[..n], k, name, Assigned(home));
        assert FirstAt(lines, k, name, Assigned(home));
      } else if Named(lines[n], home) == Some(name) {
        forall j | 0 <= j < n ensures Named(lines[j], home) != Some(name) {
          if Named(lines[j], home) == Some(name) {
            FirstBefore(lines[..n], j, name, home);
          }
        }
        assert FirstAt(lines, n, name, Assigned(home));
      } else {
        NotEarlier(lines[..n], lines, name, home);
      }
    }
  }

  lemma NotEarlier(before: seq<string>, lines: seq<string>, name: string, home: string)
    requires lines != [] && before == lines[..|lines| - 1] && Named(lines[|lines| - 1], home) != Some(name)
    ensures (exists k :: FirstAt(lines, k, name, Assigned(home))) ==> exists k :: FirstAt(before, k, name, Assigned(home))
  {
    hide Named;
    if k :| FirstAt(lines, k, name, Assigned(home)) {
      assert FirstAt(before, k, name, Assigned(home));
    }
  }

  lemma {:induction false} FirstBefore(lines: seq<string>, k: nat, name: string, home: string)
    requires k < |lines| && Named(lines[k], home) == Some(name)
    ensures exists j :: FirstAt(lines, j, name, Assigned(home))
  {
    hide Named;
    if j :| 0 <= j < k && Named(lines[j], home) == Some(name) {
      FirstBefore(lines, j, name, home);
    } else {
      assert FirstAt(lines, k, name, Assigned(home));
    }
  }

  /** The names come in the order the old file first assigns them. */
  lemma {:induction false} OrderIsByFirst(lines: seq<string>, i: nat, j: nat, home: string)
    requires i < j < |Order(lines, home)|
    ensures exists a, b :: a < b && FirstAt(lines, a, Order(lines, home)[i], Assigned(home)) && FirstAt(lines, b, Order(lines, home)[j], Assigned(home))
  {
    hide Named, FirstAt, Assigned;
    OrderIsKeys(lines, home);
    var n := |lines| - 1;
    var before := lines[..n];
    OrderIsKeys(before, home);
    assert Order(before, home) <= Order(lines, home);
    if j < |Order(before, home)| {
      OrderIsByFirst(before, i, j, home);
      var a, b :| a < b && FirstAt(before, a, Order(lines, home)[i], Assigned(home)) && FirstAt(before, b, Order(lines, home)[j], Assigned(home));
      FirstStays(lines, a, Order(lines, home)[i], home);
      FirstStays(lines, b, Order(lines, home)[j], home);
    } else {
      var x, y := Order(lines, home)[i], Order(lines, home)[j];
      NamedSomewhere(before, x, home);
      NamedSomewhere(before, y, home);
      var a :| FirstAt(before, a, x, Assigned(home));
      FirstStays(lines, a, x, home);
      FirstNow(lines, y, home);
      FirstIsBelow(before, a, x, home);
    }
  }

  lemma FirstIsBelow(lines: seq<string>, k: nat, name: string, home: string)
    requires FirstAt(lines, k, name, Assigned(home))
    ensures k < |lines|
  {
  }

  lemma FirstStays(lines: seq<string>, k: nat, name: string, home: string)
    requires lines != [] && FirstAt(lines[..|lines| - 1], k, name, Assigned(home))
    ensures FirstAt(lines, k, name, Assigned(home))
  {
    hide Named;
  }

  lemma FirstNow(lines: seq<string>, name: string, home: string)
    requires lines != [] && Named(lines[|lines| - 1], home) == Some(name)
    requires name !in Values(lines[..|lines| - 1], home)
    ensures FirstAt(lines, |lines| - 1, name, Assigned(home))
  {
    hide Named;
    NamedSomewhere(lines[..|lines| - 1], name, home);
    forall j | 0 <= j < |lines| - 1 ensures Named(lines[j], home) != Some(name) {
      if Named(lines[j], home) == Some(name) {
        FirstBefore(lines[..|lines| - 1], j, name, home);
      }
    }
  }

  // --- where it goes -----------------------------------------------------------------------------------

  lemma SameFirst(shipped: seq<string>, k: nat, name: string, home: string)
    requires k < |shipped| - 1
    ensures FirstAt(shipped, k, name, Commented(home)) <==> FirstAt(shipped[..|shipped| - 1], k, name, Commented(home))
  {
    hide CommentedName;
  }

  lemma FirstOfItsName(shipped: seq<string>, name: string, home: string)
    requires shipped != [] && CommentedName(shipped[|shipped| - 1], home) == Some(name)
    ensures FirstAt(shipped, |shipped| - 1, name, Commented(home)) <==> !HasHome(shipped[..|shipped| - 1], name, home)
  {
    hide CommentedName;
    var before := shipped[..|shipped| - 1];
    if !FirstAt(shipped, |shipped| - 1, name, Commented(home)) {
      var j :| 0 <= j < |before| && Commented(home)(shipped[j]) == Some(name);
      assert before[j] in before;
    }
  }

  /** Line by line: the user's line where it takes the place of the first default of its name,
      and the new file's own line everywhere else. */
  lemma {:induction false} PlacedAt(shipped: seq<string>, values: map<string, string>, k: nat, home: string)
    requires k < |shipped|
    ensures var out, name := Place(shipped, values, home).out, CommentedName(shipped[k], home);
            && |out| == |shipped|
            && out[k] == if name.Some? && name.value in values && FirstAt(shipped, k, name.value, Commented(home)) then values[name.value] else shipped[k]
  {
    hide CommentedName, HasHome, FirstAt, Commented;
    var n := |shipped| - 1;
    Placed(shipped[..n], values, home);
    if k < n {
      PlacedAt(shipped[..n], values, k, home);
      if CommentedName(shipped[k], home).Some? {
        SameFirst(shipped, k, CommentedName(shipped[k], home).value, home);
      }
    } else if CommentedName(shipped[n], home).Some? {
      FirstOfItsName(shipped, CommentedName(shipped[n], home).value, home);
    }
  }

  lemma Stacked(out: seq<string>, header: seq<string>, below: seq<string>)
    ensures var all := out + ([""] + header + below);
            && out + [""] + header <= all && |all| == |out + [""] + header| + |below|
            && all[|out + [""] + header|..] == below
  {
  }

  /** Below the new file's lines, after a blank line and the header, the orphans commented out. */
  lemma MergedAt(current: seq<string>, shipped: seq<string>, home: string)
    ensures var values, merged := Values(current, home), MergedLines(current, shipped, home);
            var p := Place(shipped, values, home);
            var orphans, above := Orphans(Order(current, home), p.placed), p.out + [""] + CARRIED_HEADER;
            if orphans == [] then merged == p.out
            else above <= merged && IsCommented(merged[|above|..], orphans, values)
  {
    hide Place, Order, Values, Carried, Orphans, CARRIED_HEADER, IsCommented, OrphanLines;
    var values := Values(current, home);
    var p := Place(shipped, values, home);
    OrderIsKeys(current, home);
    SplitOrder(Order(current, home), p.placed);
    var orphans := Orphans(Order(current, home), p.placed);
    if orphans == [] {
      assert p.out + [] == p.out;
    } else {
      Stacked(p.out, CARRIED_HEADER, OrphanLines(orphans, values));
      OrphansCommented(orphans, values);
    }
  }

  ghost predicate IsCommented(lines: seq<string>, names: seq<string>, values: map<string, string>) {
    && |lines| == |names|
    && forall i :: 0 <= i < |lines| ==> names[i] in values && lines[i] == "#" + TrimBlanks(values[names[i]])
  }

  lemma OrphansCommented(orphans: seq<string>, values: map<string, string>)
    requires forall n <- orphans :: n in values
    ensures IsCommented(OrphanLines(orphans, values), orphans, values)
  {
  }

  /** Both reports keep the order, and between them hold every name. */
  lemma {:induction false} ReportsKeepOrder(order: seq<string>, placed: set<string>)
    ensures Subsequence(Carried(order, placed), order) && Subsequence(Orphans(order, placed), order)
    ensures |Carried(order, placed)| + |Orphans(order, placed)| == |order|
  {
    if order != [] {
      var n := |order| - 1;
      ReportsKeepOrder(order[..n], placed);
      SubsequenceSnoc(Carried(order[..n], placed), order[..n], order[n]);
      SubsequenceSnoc(Orphans(order[..n], placed), order[..n], order[n]);
      assert order == order[..n] + [order[n]];
      var c, o := Carried(order[..n], placed), Orphans(order[..n], placed);
      assert c + [] == c && o + [] == o;
    }
  }
}
