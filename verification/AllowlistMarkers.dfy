/** How a marker may be written, and what a note says: every spelling of a line that findGroup and
    SeedFor look for, read back. */
module AllowlistMarkers {
  import opened Text
  import opened Allowlist

  ghost predicate Spaces(s: string) {
    forall c <- s :: IsSpace(c)
  }

  lemma {:induction false} TrimLeftGoes(s: string, text: string)
    requires Spaces(s) && (text == "" || !IsSpace(text[0]))
    ensures TrimLeft(s + text) == text
  {
    if s == "" {
      assert s + text == text;
    } else {
      assert s[0] in s && (s + text)[1..] == s[1..] + text;
      TrimLeftGoes(s[1..], text);
    }
  }

  lemma {:induction false} TrimRightGoes(text: string, s: string)
    requires Spaces(s) && (text == "" || !IsSpace(text[|text| - 1]))
    ensures TrimRight(text + s) == text
  {
    if s == "" {
      assert text + s == text;
    } else {
      var n := |s| - 1;
      assert s[n] in s && (text + s)[..|text + s| - 1] == text + s[..n];
      TrimRightGoes(text, s[..n]);
    }
  }

  /** A text with no space at either end. */
  ghost predicate Trim(s: string) {
    s == "" || (!IsSpace(s[0]) && !IsSpace(s[|s| - 1]))
  }

  lemma TrimGoes(before: string, text: string, after: string)
    requires Spaces(before) && Spaces(after) && Trim(text)
    ensures TrimSpace(before + text + after) == text
  {
    if text == "" {
      AllSpaces(before + after);
      assert before + text + after == before + after;
    } else {
      assert before + text + after == before + (text + after);
      assert (text + after)[0] == text[0];
      TrimLeftGoes(before, text + after);
      TrimRightGoes(text, after);
    }
  }

  lemma {:induction false} AllSpaces(s: string)
    requires Spaces(s)
    ensures TrimSpace(s) == ""
  {
    if s != "" {
      assert s[0] in s;
      AllSpaces(s[1..]);
    }
  }

  lemma HashText(b: string, rest: string)
    requires Trim(rest) && rest != ""
    ensures Trim("#" + b + rest) && ("#" + b + rest)[1..] == b + rest + ""
  {
    var text := "#" + b + rest;
    assert text[|text| - 1] == rest[|rest| - 1];
  }

  lemma Regrouped(a: string, b: string, rest: string, d: string)
    ensures a + "#" + b + rest + d == a + ("#" + b + rest) + d
  {
  }

  /** What follows the hash, without the spaces around it, is read up to its first space. */
  lemma CommentReads(a: string, b: string, rest: string, d: string)
    requires Spaces(a) && Spaces(b) && Spaces(d) && Trim(rest) && "@" <= rest
    ensures var k := IndexOf(rest, ' ');
            ParseMarker(a + "#" + b + rest + d) == Marker(rest[..k], if k < |rest| then TrimSpace(rest[k + 1..]) else "")
  {
    hide IndexOf, TrimSpace, Spaces, Trim;
    var text := "#" + b + rest;
    HashText(b, rest);
    Regrouped(a, b, rest, d);
    TrimGoes(a, text, d);
    NoSpaces();
    TrimGoes(b, rest, "");
    assert "#" <= text;
  }

  lemma NoSpaces()
    ensures Spaces("")
  {
  }

  /** A marker however it is spaced: the directive is the word after the hash, the argument the
      rest without the spaces around it. */
  lemma MarkerReads(a: string, b: string, directive: string, c: string, argument: string, d: string)
    requires Spaces(a) && Spaces(b) && Spaces(c) && Spaces(d)
    requires "@" <= directive && ' ' !in directive && Trim(directive) && Trim(argument) && argument != ""
    ensures ParseMarker(a + "#" + b + (directive + " " + c + argument) + d) == Marker(directive, argument)
  {
    hide ParseMarker, TrimSpace;
    var rest := directive + " " + c + argument;
    assert rest[0] == '@' && rest[|rest| - 1] == argument[|argument| - 1];
    CommentReads(a, b, rest, d);
    assert rest == directive + [' '] + (c + argument);
    IndexOfAt(directive, ' ', c + argument);
    assert rest[..|directive|] == directive && rest[|directive| + 1..] == c + argument + "";
    TrimGoes(c, argument, "");
  }

  lemma BareMarkerReads(a: string, b: string, directive: string, d: string)
    requires Spaces(a) && Spaces(b) && Spaces(d) && "@" <= directive && ' ' !in directive && Trim(directive)
    ensures ParseMarker(a + "#" + b + directive + d) == Marker(directive, "")
  {
    hide ParseMarker;
    CommentReads(a, b, directive, d);
    assert forall i :: 0 <= i < |directive| ==> directive[i] in directive;
    assert directive[..|directive|] == directive;
  }

  /** And nothing else is one: a line that is no comment, or a comment with another first word. */
  lemma NoMarkerReads(a: string, text: string, d: string)
    requires Spaces(a) && Spaces(d) && Trim(text)
    requires !("#" <= text) || (exists b, rest :: Spaces(b) && text == "#" + b + rest && (rest == "" || (!IsSpace(rest[0]) && rest[0] != '@')))
    ensures ParseMarker(a + text + d) == Marker("", "")
  {
    TrimGoes(a, text, d);
    if "#" <= text {
      var b, rest :| Spaces(b) && text == "#" + b + rest && (rest == "" || (!IsSpace(rest[0]) && rest[0] != '@'));
      assert text[1..] == b + rest + "";
      assert rest != "" ==> rest[|rest| - 1] == text[|text| - 1];
      TrimGoes(b, rest, "");
    }
  }

  /** The feature a marker is refused for is the first the program does not know. */
  lemma {:induction false} UnknownIsFirst(features: seq<string>)
    ensures UnknownAmong(features) == None <==> forall f <- features :: f in FEATURES
    ensures UnknownAmong(features).Some? ==>
              exists i :: 0 <= i < |features| && features[i] == UnknownAmong(features).value && features[i] !in FEATURES
                          && forall j :: 0 <= j < i ==> features[j] in FEATURES
  {
    hide FEATURES;
    if features != [] && features[0] in FEATURES {
      UnknownIsFirst(features[1..]);
      if UnknownAmong(features).Some? {
        var i :| 0 <= i < |features[1..]| && features[1..][i] == UnknownAmong(features).value && features[1..][i] !in FEATURES
                 && forall j :: 0 <= j < i ==> features[1..][j] in FEATURES;
        assert features[i + 1] == features[1..][i];
        forall j | 0 <= j < i + 1 ensures features[j] in FEATURES {
          if j > 0 {
            assert features[j] == features[1..][j - 1];
          }
        }
      }
    } else if features != [] {
      assert features[0] in features;
    }
  }

  // --- notes -----------------------------------------------------------------------------------

  function Between(words: seq<string>): seq<string> {
    if |words| <= 1 then words else [words[0], "or"] + Between(words[1..])
  }

  /** The names joined by "or" are read back with that word between them. */
  lemma {:induction false} FieldsOfOr(words: seq<string>)
    requires forall w <- words :: IsWord(w)
    ensures Fields(Join(words, " or ")) == Between(words)
  {
    if |words| == 1 {
      FieldsOfWordThen(words[0], "");
      assert words[0] + "" == words[0];
    } else if words != [] {
      var tail := Join(words[1..], " or ");
      FieldsOfOr(words[1..]);
      FieldsOfWordThen(words[0], " or " + tail);
      assert words[0] + " or " + tail == words[0] + (" or " + tail);
      assert (" or " + tail)[1..] == "or" + (" " + tail);
      FieldsOfWordThen("or", " " + tail);
      assert (" " + tail)[1..] == tail;
    }
  }

  lemma {:induction false} BetweenTells(a: seq<string>, b: seq<string>)
    requires Between(a) == Between(b)
    ensures a == b
  {
    assert |a| <= 1 ==> |Between(a)| == |a|;
    if |a| > 1 && |b| > 1 {
      assert Between(a)[0] == a[0] && Between(b)[0] == b[0];
      assert Between(a)[2..] == Between(a[1..]) && Between(b)[2..] == Between(b[1..]);
      BetweenTells(a[1..], b[1..]);
      assert a == [a[0]] + a[1..] && b == [b[0]] + b[1..];
    } else {
      BetweenSize(a);
      BetweenSize(b);
    }
  }

  lemma {:induction false} BetweenSize(a: seq<string>)
    ensures |Between(a)| == if a == [] then 0 else 2 * |a| - 1
  {
    if |a| > 1 {
      BetweenSize(a[1..]);
    }
  }

  lemma SameMiddle(before: string, x: string, y: string, after: string)
    ensures before + x + after == before + y + after ==> x == y
  {
    var p, q := before + x + after, before + y + after;
    assert p[|before|..|p| - |after|] == x && q[|before|..|q| - |after|] == y;
  }

  /** A note names its features: notes of different ones differ, and no note of the one kind is
      one of the other. */
  lemma NotesTell(a: seq<string>, b: seq<string>)
    requires (forall w <- a :: IsWord(w)) && forall w <- b :: IsWord(w)
    ensures OmittedNote(a) == OmittedNote(b) ==> a == b
    ensures AddedNote(a) == AddedNote(b) ==> a == b
    ensures OmittedNote(a) != AddedNote(b)
  {
    FieldsOfOr(a);
    FieldsOfOr(b);
    hide Fields, Between, Join;
    var x, y := Join(a, " or "), Join(b, " or ");
    SameMiddle("# (omitted: this VM has no ", x, y, ")");
    SameMiddle("# (added: this VM now has ", x, y, ")");
    assert OmittedNote(a)[3] == 'o' && AddedNote(b)[3] == 'a';
    if x == y {
      BetweenTells(a, b);
    }
  }
}
