/** What the settings parser reads, written out form by form: every form a value can be spelled
    in, and what it means under any variables. */
module ShellConfLaws {
  import opened Text
  import opened ShellConf

  ghost function Followed(head: string, rest: Result<string, ConfError>): Result<string, ConfError> {
    if rest.Ok? then Ok(head + rest.value) else rest
  }

  // --- expansion -----------------------------------------------------------------------------

  lemma Unfolded(s: string, lookup: Lookup)
    requires s != "" && '`' !in s[..FirstPiece(s).1]
    ensures var (piece, n) := FirstPiece(s);
            Expand(s, lookup) == if piece.Command? then Err(Substitution) else Followed(PieceText(piece, lookup), Expand(s[n..], lookup))
  {
    hide FirstPiece;
    var (piece, n) := FirstPiece(s);
    assert s == s[..n] + s[n..];
    assert '`' in s <==> '`' in s[n..];
    var rest := if piece.Command? then [] else Pieces(s[n..]);
    assert ([piece] + rest)[1..] == rest;
    assert Pieces(s) == [piece] + rest;
  }

  lemma ExpandsNothing(lookup: Lookup)
    ensures Expand("", lookup) == Ok("")
  {
  }

  /** A character that is neither a dollar nor a backslash stands for itself. */
  lemma ExpandsPlain(c: char, tail: string, lookup: Lookup)
    requires c != '$' && c != '\\' && c != '`'
    ensures Expand([c] + tail, lookup) == Followed([c], Expand(tail, lookup))
  {
    hide Expand;
    var s := [c] + tail;
    assert s[..1] == [c] && s[1..] == tail;
    Unfolded(s, lookup);
  }

  /** A backslash takes the dollar after it literally, and is itself before anything else. */
  lemma ExpandsBackslash(tail: string, lookup: Lookup)
    ensures Expand("\\$" + tail, lookup) == Followed("$", Expand(tail, lookup))
    ensures tail == "" || tail[0] != '$' ==> Expand("\\" + tail, lookup) == Followed("\\", Expand(tail, lookup))
  {
    hide Expand;
    var s, t := "\\$" + tail, "\\" + tail;
    assert s[..2] == "\\$" && s[2..] == tail && t[..1] == "\\" && t[1..] == tail;
    Unfolded(s, lookup);
    if tail == "" || tail[0] != '$' {
      Unfolded(t, lookup);
    }
  }

  /** ${NAME}: whatever is between the braces is looked up. */
  lemma ExpandsBraces(name: string, tail: string, lookup: Lookup)
    requires '}' !in name && '`' !in name
    ensures Expand("${" + name + "}" + tail, lookup) == Followed(lookup(name), Expand(tail, lookup))
  {
    hide Expand;
    var s := "${" + name + "}" + tail;
    var rest := "{" + name + "}" + tail;
    assert s[1..] == rest;
    IndexOfAt("{" + name, '}', tail);
    assert "{" + name + ['}'] + tail == rest;
    assert rest[1..|name| + 1] == name;
    assert FirstPiece(s) == (Ref(name), |name| + 3);
    assert s[..|name| + 3] == "${" + name + "}" && s[|name| + 3..] == tail;
    Unfolded(s, lookup);
  }

  /** A brace that is never closed leaves the dollar as it is. */
  lemma ExpandsOpenBrace(tail: string, lookup: Lookup)
    requires '}' !in tail
    ensures Expand("${" + tail, lookup) == Followed("$", Expand("{" + tail, lookup))
  {
    hide Expand;
    var s, rest := "${" + tail, "{" + tail;
    assert s[1..] == rest && s[..1] == "$";
    assert forall i :: 0 <= i < |rest| ==> rest[i] == '{' || rest[i] in tail;
    assert IndexOf(rest, '}') == |rest|;
    Unfolded(s, lookup);
  }

  lemma {:induction false} NameRuns(name: string, tail: string, from: nat)
    requires from <= |name| && IsName(name) && (tail == "" || !IsNameByte(tail[0], |name|))
    ensures NameEnd(name + tail, from) == |name|
    decreases |name| - from
  {
    if from < |name| {
      NameRuns(name, tail, from + 1);
    }
  }

  /** $NAME: the longest name there is. */
  lemma ExpandsName(name: string, tail: string, lookup: Lookup)
    requires name != "" && IsName(name) && (tail == "" || !IsNameByte(tail[0], |name|))
    ensures Expand("$" + name + tail, lookup) == Followed(lookup(name), Expand(tail, lookup))
  {
    hide Expand, NameEnd;
    var s, rest := "$" + name + tail, name + tail;
    assert s[1..] == rest;
    assert rest[0] == name[0] && IsNameByte(name[0], 0);
    NameRuns(name, tail, 0);
    assert rest[..|name|] == name;
    assert FirstPiece(s) == (Ref(name), |name| + 1);
    assert s[..|name| + 1] == "$" + name && s[|name| + 1..] == tail;
    forall i | 0 <= i < |name| ensures name[i] != '`' { assert IsNameByte(name[i], i); }
    Unfolded(s, lookup);
  }

  /** A dollar before anything else is a dollar. */
  lemma ExpandsDollar(tail: string, lookup: Lookup)
    requires tail == "" || (tail[0] != '(' && tail[0] != '{' && !IsNameByte(tail[0], 0))
    ensures Expand("$" + tail, lookup) == Followed("$", Expand(tail, lookup))
  {
    hide Expand;
    var s := "$" + tail;
    assert s[1..] == tail && s[..1] == "$";
    Unfolded(s, lookup);
  }

  /** Anything to be run is refused. */
  lemma ExpandsNoCommand(tail: string, lookup: Lookup)
    ensures Expand("$(" + tail, lookup) == Err(Substitution)
    ensures '`' in tail ==> Expand(tail, lookup) == Err(Substitution)
  {
    var s := "$(" + tail;
    if '`' !in tail {
      assert s[..2] == "$(" && s[1..][0] == '(';
      hide Expand;
      Unfolded(s, lookup);
    }
  }

  // --- values ----------------------------------------------------------------------------------

  ghost function Trailing(value: Result<string, ConfError>, trailing: string): Result<(string, string), ConfError> {
    if value.Ok? then Ok((value.value, trailing)) else Err(value.error)
  }

  /** Single quotes are literal, up to the next one. */
  lemma ReadsSingleQuoted(text: string, rest: string, home: string, lookup: Lookup)
    requires '\'' !in text
    ensures ParseValue("'" + text + "'" + rest, home, lookup) == Ok((text, rest))
    ensures ParseValue("'" + text, home, lookup) == Err(UnterminatedSingle)
  {
    var s, t := "'" + text + "'" + rest, "'" + text;
    assert s[1..] == text + ['\''] + rest && t[1..] == text;
    IndexOfAt(text, '\'', rest);
    assert s[1..1 + |text|] == text && s[|text| + 2..] == rest;
    assert forall i :: 0 <= i < |text| ==> text[i] in text;
  }

  /** What a double-quoted text spells: a backslash drops out before any character. */
  ghost function Unescaped(s: string): string
    decreases |s|
  {
    if s == "" then ""
    else if s[0] == '\\' && |s| > 1 then [s[1]] + Unescaped(s[2..])
    else [s[0]] + Unescaped(s[1..])
  }

  /** A text that a double quote can follow: every backslash has its character, and every
      quote its backslash. */
  ghost predicate Enclosed(s: string)
    decreases |s|
  {
    s == "" || (if s[0] == '\\' then |s| > 1 && Enclosed(s[2..]) else s[0] != '"' && Enclosed(s[1..]))
  }

  lemma {:induction false} QuotedEnds(text: string, rest: string)
    requires Enclosed(text)
    ensures Quoted(text + "\"" + rest) == Some((Unescaped(text), rest))
    decreases |text|
  {
    var s := text + "\"" + rest;
    if text == "" {
      assert s[0] == '"' && s[1..] == rest;
    } else if text[0] == '\\' {
      QuotedEnds(text[2..], rest);
      assert s[2..] == text[2..] + "\"" + rest;
    } else {
      QuotedEnds(text[1..], rest);
      assert s[1..] == text[1..] + "\"" + rest;
    }
  }

  lemma {:induction false} QuotedNeverEnds(text: string)
    requires Enclosed(text)
    ensures Quoted(text) == None && Quoted(text + "\\") == None
    decreases |text|
  {
    var s := text + "\\";
    if text == "" {
    } else if text[0] == '\\' {
      QuotedNeverEnds(text[2..]);
      assert s[2..] == text[2..] + "\\";
    } else {
      QuotedNeverEnds(text[1..]);
      assert s[1..] == text[1..] + "\\";
    }
  }

  /** Double quotes: unescaped, then expanded; unclosed, refused. */
  lemma ReadsDoubleQuoted(text: string, rest: string, home: string, lookup: Lookup)
    requires Enclosed(text)
    ensures ParseValue("\"" + text + "\"" + rest, home, lookup) == Trailing(Expand(Unescaped(text), lookup), rest)
    ensures ParseValue("\"" + text, home, lookup) == Err(UnterminatedDouble)
    ensures ParseValue("\"" + text + "\\", home, lookup) == Err(UnterminatedDouble)
  {
    hide Quoted, Unescaped, Expand;
    QuotedEnds(text, rest);
    QuotedNeverEnds(text);
    assert ("\"" + text + "\"" + rest)[1..] == text + "\"" + rest;
    assert ("\"" + text)[1..] == text && ("\"" + text + "\\")[1..] == text + "\\";
  }

  predicate IsBlank(c: char) {
    c == ' ' || c == '\t'
  }

  lemma {:induction false} WordEnds(word: string, rest: string)
    requires (forall c <- word :: !IsBlank(c)) && (rest == "" || IsBlank(rest[0]))
    ensures Unquoted(word + rest) == |word|
  {
    if word == "" {
      assert word + rest == rest;
    } else {
      assert (word + rest)[1..] == word[1..] + rest && word[0] in word;
      WordEnds(word[1..], rest);
    }
  }

  /** A bare value ends at a blank; the home directory stands for a leading tilde. */
  lemma ReadsBare(word: string, rest: string, home: string, lookup: Lookup)
    requires (forall c <- word :: !IsBlank(c)) && (rest == "" || IsBlank(rest[0]))
    ensures word == "" || (word[0] != '\'' && word[0] != '"' && !("~/" <= word)) ==>
              ParseValue(word + rest, home, lookup) == Trailing(Expand(word, lookup), rest)
    ensures "~/" <= word ==> ParseValue(word + rest, home, lookup) == Trailing(Expand(home + word[1..], lookup), rest)
  {
    hide Expand, Unquoted;
    WordEnds(word, rest);
    var s := word + rest;
    assert s[..|word|] == word && s[|word|..] == rest;
    assert s != "" && word != "" ==> s[0] == word[0];
  }

  // --- lines -----------------------------------------------------------------------------------

  ghost predicate Blanks(s: string) {
    forall c <- s :: IsBlank(c)
  }

  lemma {:induction false} BlanksGo(blanks: string, s: string)
    requires Blanks(blanks) && (s == "" || !IsBlank(s[0]))
    ensures TrimBlanks(blanks + s) == s
  {
    if blanks == "" {
      assert blanks + s == s;
    } else {
      assert (blanks + s)[1..] == blanks[1..] + s && blanks[0] in blanks;
      BlanksGo(blanks[1..], s);
    }
  }

  /** Nothing, or a comment: no assignment. */
  lemma LineIsNothing(blanks: string, comment: string, home: string, lookup: Lookup)
    requires Blanks(blanks) && (comment == "" || comment[0] == '#')
    ensures ParseAssignment(blanks + comment, home, lookup) == Ok(None)
  {
    BlanksGo(blanks, comment);
  }

  /** A shell name: letters, figures and underscores, and no figure first. */
  lemma NamesAre(name: string)
    ensures IsName(name) <==> (name != "" ==> name[0] !in FIGURES) && forall c <- name :: c in SMALL || c in LARGE || c in FIGURES || c == '_'
  {
    hide SMALL, LARGE, FIGURES;
    forall c: char
      ensures (c in SMALL <==> 'a' <= c <= 'z') && (c in LARGE <==> 'A' <= c <= 'Z') && (c in FIGURES <==> '0' <= c <= '9')
    {
      SmallLetters(c);
      LargeLetters(c);
      Figures(c);
    }
    assert forall i :: 0 < i < |name| ==> IsNameByte(name[i], i) == (IsNameByte(name[i], 0) || '0' <= name[i] <= '9');
    if IsName(name) {
      assert name != "" ==> IsNameByte(name[0], 0);
      forall c | c in name ensures c in SMALL || c in LARGE || c in FIGURES || c == '_' {
        var i :| 0 <= i < |name| && name[i] == c;
        assert IsNameByte(name[i], i);
      }
    } else {
      var i :| 0 <= i < |name| && !IsNameByte(name[i], i);
      assert name[i] in name;
    }
  }

  lemma NameBytes(name: string)
    requires name != "" && IsName(name)
    ensures !IsBlank(name[0]) && name[0] != '#' && '=' !in name && ' ' !in name
  {
    assert IsNameByte(name[0], 0);
    forall i | 0 <= i < |name| ensures name[i] != '=' && name[i] != ' ' { assert IsNameByte(name[i], i); }
  }

  /** An assignment, exported or not, with blanks before it. */
  lemma LineSplits(blanks: string, exported: Option<string>, name: string, written: string)
    requires Blanks(blanks) && (exported.Some? ==> Blanks(exported.value)) && name != "" && IsName(name)
    ensures SplitAssignment(blanks + (if exported.Some? then "export " + exported.value else "") + name + "=" + written)
         == Ok(Some((name, written)))
  {
    NameBytes(name);
    var core := name + "=" + written;
    assert core[0] == name[0];
    IndexOfAt(name, '=', written);
    assert name + ['='] + written == core;
    assert core[..|name|] == name && core[|name| + 1..] == written;
    var text := (if exported.Some? then "export " + exported.value else "") + core;
    var line := blanks + (if exported.Some? then "export " + exported.value else "") + name + "=" + written;
    assert line == blanks + text;
    if exported.Some? {
      var ex := "export " + exported.value + core;
      assert ex[0] == 'e' && ex[7..] == exported.value + core && ex[..7] == "export ";
      BlanksGo(blanks, ex);
      BlanksGo(exported.value, core);
      assert text == ex;
    } else {
      assert text == core;
      BlanksGo(blanks, core);
      NotExported(name, written);
    }
  }

  lemma NotExported(name: string, written: string)
    requires name != "" && IsName(name)
    ensures !("export " <= name + "=" + written)
  {
    NameBytes(name);
    var core, word := name + "=" + written, "export ";
    assert core[|name|] == '=' && forall i :: 0 <= i < 7 ==> word[i] != '=';
    var k := if |name| < 7 then |name| else 6;
    assert core[k] != word[k];
    assert !(word <= core);
  }

  /** A line is its value's reading, with only a comment allowed behind it. */
  lemma LineReads(blanks: string, exported: Option<string>, name: string, written: string, home: string, lookup: Lookup)
    requires Blanks(blanks) && (exported.Some? ==> Blanks(exported.value)) && name != "" && IsName(name)
    ensures ParseAssignment(blanks + (if exported.Some? then "export " + exported.value else "") + name + "=" + written, home, lookup)
         == match ParseValue(written, home, lookup)
            case Err(e) => Err(e)
            case Ok((value, trailing)) => if Trails(trailing) then Ok(Some((name, value))) else Err(TrailingText)
  {
    hide SplitAssignment, ParseValue, Trails;
    LineSplits(blanks, exported, name, written);
  }

  lemma TrailsExactly(blanks: string, after: string)
    requires Blanks(blanks) && (after == "" || !IsBlank(after[0]))
    ensures Trails(blanks + after) <==> after == "" || after[0] == '#'
  {
    BlanksGo(blanks, after);
  }

  // --- files -----------------------------------------------------------------------------------

  ghost function Continued(p: Parsed, line: string, at: nat, home: string, env: Lookup): Result<Parsed, BadLine> {
    var parsed := ParseAssignment(line, home, LookIn(p.locals, env));
    if parsed.Err? then Err(BadLine(at, parsed.error))
    else if parsed.value.None? then Ok(p)
    else Ok(Assign(p, at, parsed.value.value.0, parsed.value.value.1))
  }

  /** The last line of a file: its setting is what the line says where the lines before it
      stand in front of the environment. */
  lemma LastLineSets(front: seq<string>, line: string, home: string, env: Lookup)
    ensures var before := ParseLines(front, home, env);
            ParseLines(front + [line], home, env)
            == if before.Err? then before else Continued(before.value, line, |front| + 1, home, env)
  {
    hide ParseAssignment, Assign;
    var lines := front + [line];
    assert lines[..|front|] == front;
  }

  /** PTRBOX_KEY="${NAME}tail" sets the key to what NAME is by then, in the file or else in
      the environment, then the tail. */
  lemma BracedSetting(front: seq<string>, key: string, name: string, tail: string, home: string, env: Lookup)
    requires ParseLines(front, home, env).Ok? && key in KEYS && IsName(key)
    requires '}' !in name && '`' !in name && '"' !in name && '\\' !in name && '"' !in tail && '\\' !in tail
    ensures var locals := ParseLines(front, home, env).value.locals;
            var meant := Followed(if name in locals then locals[name] else env(name), Expand(tail, LookIn(locals, env)));
            var now := ParseLines(front + [PREFIX + key + "=\"${" + name + "}" + tail + "\""], home, env);
            if meant.Ok? then now.Ok? && key in now.value.values && now.value.values[key] == meant.value
            else now == Err(BadLine(|front| + 1, meant.error))
  {
    hide ParseAssignment, Expand, ParseValue, ParseLines, Enclosed, Unescaped, KEYS;
    var locals := ParseLines(front, home, env).value.locals;
    var lookup := LookIn(locals, env);
    var text := "${" + name + "}" + tail;
    ExpandsBraces(name, tail, lookup);
    PlainText(text);
    QuotedSetting(front, key, text, home, env);
    assert PREFIX + key + "=\"${" + name + "}" + tail + "\"" == PREFIX + key + "=" + ("\"" + text + "\"");
  }

  /** And PTRBOX_KEY="$NAMEtail" the same, before a tail that does not go on with the name. */
  lemma NamedSetting(front: seq<string>, key: string, name: string, tail: string, home: string, env: Lookup)
    requires ParseLines(front, home, env).Ok? && key in KEYS && IsName(key)
    requires name != "" && IsName(name) && (tail == "" || !IsNameByte(tail[0], |name|)) && '"' !in tail && '\\' !in tail
    ensures var locals := ParseLines(front, home, env).value.locals;
            var meant := Followed(if name in locals then locals[name] else env(name), Expand(tail, LookIn(locals, env)));
            var now := ParseLines(front + [PREFIX + key + "=\"$" + name + tail + "\""], home, env);
            if meant.Ok? then now.Ok? && key in now.value.values && now.value.values[key] == meant.value
            else now == Err(BadLine(|front| + 1, meant.error))
  {
    hide ParseAssignment, Expand, ParseValue, ParseLines, Enclosed, Unescaped, KEYS;
    var locals := ParseLines(front, home, env).value.locals;
    var lookup := LookIn(locals, env);
    var text := "$" + name + tail;
    ExpandsName(name, tail, lookup);
    forall i | 0 <= i < |name| ensures name[i] != '"' && name[i] != '\\' { assert IsNameByte(name[i], i); }
    PlainText(text);
    QuotedSetting(front, key, text, home, env);
    assert PREFIX + key + "=\"$" + name + tail + "\"" == PREFIX + key + "=" + ("\"" + text + "\"");
  }

  lemma {:induction false} PlainText(text: string)
    requires '"' !in text && '\\' !in text
    ensures Enclosed(text) && Unescaped(text) == text
  {
    if text != "" {
      assert text[0] in text && forall c <- text[1..] :: c in text;
      PlainText(text[1..]);
      assert text == [text[0]] + text[1..];
    }
  }

  lemma QuotedSetting(front: seq<string>, key: string, text: string, home: string, env: Lookup)
    requires ParseLines(front, home, env).Ok? && key in KEYS && IsName(key) && Enclosed(text) && Unescaped(text) == text
    ensures var locals := ParseLines(front, home, env).value.locals;
            var meant := Expand(text, LookIn(locals, env));
            var now := ParseLines(front + [PREFIX + key + "=" + ("\"" + text + "\"")], home, env);
            if meant.Ok? then now.Ok? && key in now.value.values && now.value.values[key] == meant.value
            else now == Err(BadLine(|front| + 1, meant.error))
  {
    hide ParseAssignment, Expand, ParseValue, ParseLines, Enclosed, Unescaped, KEYS, IsName;
    var lookup := LookIn(ParseLines(front, home, env).value.locals, env);
    var name, written := PREFIX + key, "\"" + text + "\"";
    SettingName(key);
    ReadsDoubleQuoted(text, "", home, lookup);
    assert "\"" + text + "\"" + "" == written;
    LineReads("", None, name, written, home, lookup);
    assert "" + "" + name + "=" + written == PREFIX + key + "=" + written;
    LastLineSets(front, PREFIX + key + "=" + written, home, env);
    assert Trails("");
  }

  lemma SettingName(key: string)
    requires IsName(key)
    ensures IsName(PREFIX + key) && PREFIX + key != "" && SettingOf(PREFIX + key) == Some(key)
  {
    var name := PREFIX + key;
    forall i | 0 <= i < |name| ensures IsNameByte(name[i], i) {
      if i >= |PREFIX| {
        assert IsNameByte(key[i - |PREFIX|], i - |PREFIX|);
      }
    }
    assert name[|PREFIX|..] == key;
  }

  /** The warnings are the settings the program does not know, by line. */
  ghost function Unknown(lines: seq<string>, home: string): seq<(nat, string)> {
    if lines == [] then []
    else
      var n := |lines| - 1;
      Unknown(lines[..n], home)
      + match AssignmentName(lines[n], home)
        case Ok(Some(name)) => if PREFIX <= name && name[|PREFIX|..] !in KEYS then [(n + 1, name)] else []
        case _ => []
  }

  lemma {:induction false} WarnsOfUnknown(lines: seq<string>, home: string, env: Lookup)
    ensures var p := ParseLines(lines, home, env); p.Ok? ==> p.value.warnings == Unknown(lines, home)
  {
    hide ParseAssignment, KEYS;
    if lines != [] {
      var n := |lines| - 1;
      WarnsOfUnknown(lines[..n], home, env);
      var p := ParseLines(lines[..n], home, env);
      if p.Ok? {
        DependsOnlyOnRefs(lines[n], home, NoVariables, LookIn(p.value.locals, env));
        assert Unknown(lines[..n], home) + [] == Unknown(lines[..n], home);
      }
    }
  }
}
