/** What the allowlist proofs need to know about single lines: entries and notes are never
    markers, and the markers and notes the program writes are read back as such. */
module AllowlistLines {
  import opened Text
  import opened Allowlist

  lemma EntryIsPlain(line: string)
    requires DomainOf(line) != ""
    ensures KindOf(line) == Other && ParseMarker(line).directive == "" && !IsNote(line)
  {
  }

  lemma NoteIsPlain(line: string)
    requires IsNote(line)
    ensures KindOf(line) == Other && ParseMarker(line).directive == "" && DomainOf(line) == ""
  {
    var text := TrimSpace(line);
    assert text[1] == ' ' && text[2] == '(';
    assert TrimLeft(text[1..]) == text[2..];
    TrimRightKeepsHead(text[2..]);
  }

  lemma BlankIsPlain()
    ensures KindOf("") == Other && DomainOf("") == "" && !IsNote("") && OneLine("")
  {
  }

  /** The note a group holds in place of its entries. */
  lemma WrittenNote(features: seq<string>)
    ensures IsNote(OmittedNote(features)) && IsNote(AddedNote(features))
  {
    TrimSpaceOfTrim(OmittedNote(features));
    TrimSpaceOfTrim(AddedNote(features));
    assert "# (omitted:" <= "# (omitted: this VM has no " <= OmittedNote(features);
    assert "# (added:" <= "# (added: this VM now has " <= AddedNote(features);
  }

  lemma EndIsClose()
    ensures KindOf("# " + END) == Close && DomainOf("# " + END) == ""
  {
    var line := "# @end";
    assert line == "# " + END;
    assert TrimRight(line) == line;
    assert TrimLeft(line[1..]) == "@end" by { assert line[1..][1..] == "@end"; }
    assert TrimRight("@end") == "@end";
    assert IndexOf("@end", ' ') == 4;
  }

  /** A marker written for a group is found again under that group's label. */
  lemma MarkerIsOpen(g: Group)
    requires g.features != [] && forall f <- g.features :: IsWord(f)
    ensures KindOf("# " + REQUIRES + " " + g.Label()) == Open(g.Label())
    ensures DomainOf("# " + REQUIRES + " " + g.Label()) == ""
  {
    var tag := g.Label();
    JoinedWordsAreTrim(g.features);
    var line := "# " + REQUIRES + " " + tag;
    TrimSpaceOfTrim(line);
    var rest := REQUIRES + " " + tag;
    assert line[1..] == " " + rest;
    assert (" " + rest)[1..] == rest;
    assert TrimLeft(" " + rest) == rest;
    TrimSpaceOfTrim(rest);
    assert rest == REQUIRES + [' '] + tag;
    IndexOfAt(REQUIRES, ' ', tag);
    assert rest[|REQUIRES| + 1..] == tag && rest[..|REQUIRES|] == REQUIRES;
    TrimSpaceOfTrim(tag);
    FieldsOfJoin(g.features);
  }

  /** An entry read off a line is itself a line holding just that entry. */
  lemma DomainIsItsOwnLine(line: string)
    requires DomainOf(line) != ""
    ensures IsWord(DomainOf(line)) && DomainOf(DomainOf(line)) == DomainOf(line)
  {
    var text := TrimSpace(line);
    TrimLeftHead(line);
    TrimRightKeepsHead(TrimLeft(line));
    FieldsAreWords(text);
    var d := Fields(text)[0];
    assert d in Fields(text);
    assert WordLength(text) > 0;
    assert d == text[..WordLength(text)];
    assert d[0] == text[0];
    WordAsLine(d);
  }

  lemma WordAsLine(d: string)
    requires IsWord(d) && d[0] != '#'
    ensures DomainOf(d) == d
  {
    assert d[0] in d && d[|d| - 1] in d;
    TrimSpaceOfTrim(d);
    assert d + "" == d;
    FieldsOfWordThen(d, "");
  }

  lemma {:induction false} EntriesAreEntries(lines: seq<string>)
    ensures forall d <- EntryDomains(lines) :: d != "" && exists l <- lines :: DomainOf(l) == d
  {
    hide DomainOf;
    if lines != [] {
      EntriesAreEntries(lines[1..]);
      assert lines[0] in lines;
      forall d | d in EntryDomains(lines) ensures d != "" && exists l <- lines :: DomainOf(l) == d {
        if d in EntryDomains(lines[1..]) {
          var l :| l in lines[1..] && DomainOf(l) == d;
          assert l in lines;
        }
      }
    }
  }

  lemma {:induction false} EntryOfLine(lines: seq<string>, line: string)
    requires line in lines && DomainOf(line) != ""
    ensures DomainOf(line) in EntryDomains(lines)
  {
    hide DomainOf;
    if lines[0] != line {
      EntryOfLine(lines[1..], line);
    }
  }

  /** No entry on any line means no entries at all. */
  lemma {:induction false} NoEntries(lines: seq<string>)
    requires forall l <- lines :: DomainOf(l) == ""
    ensures EntryDomains(lines) == []
  {
    hide DomainOf;
    if lines != [] {
      assert lines[0] in lines;
      NoEntries(lines[1..]);
    }
  }

  lemma {:induction false} NonNotesKeepEntries(lines: seq<string>)
    ensures EntryDomains(NonNotes(lines)) == EntryDomains(lines)
    ensures NonNotes(NonNotes(lines)) == NonNotes(lines)
    ensures forall l <- NonNotes(lines) :: l in lines
    ensures |NonNotes(lines)| <= |lines|
  {
    hide DomainOf, IsNote;
    if lines != [] {
      NonNotesKeepEntries(lines[1..]);
      var rest := NonNotes(lines[1..]);
      if IsNote(lines[0]) {
        NoteIsPlain(lines[0]);
        assert NonNotes(lines) == rest;
      } else {
        assert NonNotes(lines) == [lines[0]] + rest;
        assert ([lines[0]] + rest)[1..] == rest;
      }
    }
  }

  lemma {:induction false} WithoutFacts(lines: seq<string>, domains: seq<string>)
    ensures Dropped(lines, domains) == [] <==> Without(lines, domains) == lines
    ensures Dropped(Without(lines, domains), domains) == []
    ensures forall l <- Without(lines, domains) :: l in lines
    ensures |Without(lines, domains)| == |lines| - |Dropped(lines, domains)|
    ensures forall d <- EntryDomains(lines) :: d in domains || d in EntryDomains(Without(lines, domains))
    ensures forall d <- EntryDomains(Without(lines, domains)) :: d in EntryDomains(lines) && d !in domains
    ensures forall d <- Dropped(lines, domains) :: d in EntryDomains(lines) && d in domains
  {
    hide DomainOf;
    if lines != [] {
      WithoutFacts(lines[1..], domains);
      var rest := Without(lines[1..], domains);
      if DomainOf(lines[0]) == "" || DomainOf(lines[0]) !in domains {
        assert Without(lines, domains) == [lines[0]] + rest;
        assert ([lines[0]] + rest)[1..] == rest;
        assert lines == [lines[0]] + lines[1..];
      } else {
        assert Without(lines, domains) == rest;
      }
    }
  }

  lemma {:induction false} MissingFacts(held: seq<string>, lines: seq<string>)
    ensures forall l <- Missing(held, lines) :: l in lines
    ensures forall d :: d in EntryDomains(Missing(held, lines)) <==> d in EntryDomains(lines) && d !in held
  {
    hide DomainOf;
    if lines != [] {
      MissingFacts(held, lines[1..]);
      var rest := Missing(held, lines[1..]);
      if DomainOf(lines[0]) == "" || DomainOf(lines[0]) !in held {
        assert Missing(held, lines) == [lines[0]] + rest;
        assert ([lines[0]] + rest)[1..] == rest;
      } else {
        assert Missing(held, lines) == rest;
      }
    }
  }

  lemma {:induction false} NothingMissing(held: seq<string>, lines: seq<string>)
    requires forall d <- EntryDomains(lines) :: d in held
    ensures EntryDomains(Missing(held, lines)) == []
  {
    hide DomainOf;
    if lines != [] {
      EntriesAppend([lines[0]], lines[1..]);
      assert lines == [lines[0]] + lines[1..];
      NothingMissing(held, lines[1..]);
      if DomainOf(lines[0]) != "" {
        EntryOfLine(lines, lines[0]);
        assert Missing(held, lines) == Missing(held, lines[1..]);
      } else {
        var rest := Missing(held, lines[1..]);
        assert Missing(held, lines) == [lines[0]] + rest && ([lines[0]] + rest)[1..] == rest;
      }
    }
  }
}
