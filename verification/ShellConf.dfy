/** The settings parser of internal/config/shellconf.go: KEY=value lines with shell quoting and
    $NAME expansion, and nothing that is ever executed. */
module ShellConf {
  import opened Text

  datatype ConfError =
    | NotAssignment
    | TrailingText
    | UnterminatedSingle
    | UnterminatedDouble
    | Substitution

  type Lookup = string -> string

  const PREFIX := "PTRBOX_"

  /** config.Keys */
  const KEYS := [
    "REPO_ROOT", "CPUS", "MEMORY", "DISK", "PORT_MIN", "PORT_MAX",
    "DNS_SERVERS", "CLAUDE_MODEL", "KEYCHAIN_SERVICE",
    "GIT_USER_NAME", "GIT_USER_EMAIL", "DISTRO", "IMAGE_URL", "BIN_DIR",
    "EXTRA_PACKAGES", "GO", "HOST_HOOKS", "LMSTUDIO_PORT", "NODE", "NODE_VERSION", "OPENCODE", "PLAYWRIGHT", "UV"]

  // --- expansion -----------------------------------------------------------------------------

  predicate IsNameByte(c: char, offset: nat) {
    c == '_' || 'a' <= c <= 'z' || 'A' <= c <= 'Z' || (offset > 0 && '0' <= c <= '9')
  }

  predicate IsName(s: string) {
    forall i :: 0 <= i < |s| ==> IsNameByte(s[i], i)
  }

  /** How far a name runs from `from` on. */
  function NameEnd(s: string, from: nat): (end: nat)
    requires from <= |s|
    ensures from <= end <= |s|
    decreases |s| - from
  {
    if from < |s| && IsNameByte(s[from], from) then NameEnd(s, from + 1) else from
  }

  /** One piece of a text being expanded. */
  datatype Piece = Plain(text: string) | Ref(name: string) | Command

  /** The first piece of a text, and how much of the text it takes. */
  function FirstPiece(s: string): (p: (Piece, nat))
    requires s != ""
    ensures 1 <= p.1 <= |s|
  {
    if s[0] == '\\' && |s| > 1 && s[1] == '$' then (Plain("$"), 2)
    else if s[0] != '$' || |s| == 1 then (Plain([s[0]]), 1)
    else
      var rest := s[1..];
      if rest[0] == '(' then (Command, 2)
      else if rest[0] == '{' then
        var end := IndexOf(rest, '}');
        if end == |rest| then (Plain("$"), 1) else (Ref(rest[1..end]), end + 2)
      else
        var end := NameEnd(rest, 0);
        if end == 0 then (Plain("$"), 1) else (Ref(rest[..end]), end + 1)
  }

  /** The pieces of a text, up to a command. */
  function Pieces(s: string): seq<Piece>
    decreases |s|
  {
    if s == "" then []
    else
      var (piece, n) := FirstPiece(s);
      [piece] + if piece.Command? then [] else Pieces(s[n..])
  }

  function PieceText(piece: Piece, lookup: Lookup): string {
    match piece
    case Plain(text) => text
    case Ref(name) => lookup(name)
    case Command => ""
  }

  function Filled(pieces: seq<Piece>, lookup: Lookup): string {
    if pieces == [] then "" else PieceText(pieces[0], lookup) + Filled(pieces[1..], lookup)
  }

  /** expand: the pieces filled in, unless one asks for something to be run. */
  function Expand(s: string, lookup: Lookup): Result<string, ConfError> {
    if '`' in s || Command in Pieces(s) then Err(Substitution) else Ok(Filled(Pieces(s), lookup))
  }

  method NameLength(rest: string) returns (end: nat)
    ensures end == NameEnd(rest, 0)
  {
    end := 0;
    while end < |rest| && IsNameByte(rest[end], end)
      invariant 0 <= end <= |rest| && NameEnd(rest, 0) == NameEnd(rest, end)
    {
      end := end + 1;
    }
  }

  /** One turn of expand's loop: the piece at `i` and where the next one starts. */
  method NextPiece(s: string, i: nat) returns (piece: Piece, next: nat)
    requires i < |s|
    ensures (piece, next - i) == FirstPiece(s[i..])
  {
    hide NameEnd, IsNameByte;
    ghost var left := s[i..];
    if s[i] == '\\' && i + 1 < |s| && s[i + 1] == '$' {
      return Plain("$"), i + 2;
    }
    if s[i] != '$' || i + 1 >= |s| {
      return Plain([s[i]]), i + 1;
    }
    var rest := s[i + 1..];
    assert left[1..] == rest;
    if rest[0] == '(' {
      return Command, i + 2;
    }
    if rest[0] == '{' {
      var end := IndexOf(rest, '}');
      if end == |rest| {
        return Plain("$"), i + 1;
      }
      return Ref(rest[1..end]), i + end + 2;
    }
    var end := NameLength(rest);
    if end == 0 {
      return Plain("$"), i + 1;
    }
    return Ref(rest[..end]), i + end + 1;
  }

  method ExpandText(s: string, lookup: Lookup) returns (expanded: Result<string, ConfError>)
    ensures expanded == Expand(s, lookup)
  {
    hide FirstPiece, PieceText, Filled;
    if '`' in s {
      return Err(Substitution);
    }
    var b := "";
    var i := 0;
    assert s[0..] == s;
    FilledStart(Pieces(s), lookup);
    while i < |s|
      invariant 0 <= i <= |s|
      invariant Command in Pieces(s) <==> Command in Pieces(s[i..])
      invariant Filled(Pieces(s), lookup) == b + Filled(Pieces(s[i..]), lookup)
    {
      var piece, next := NextPiece(s, i);
      assert s[i..][next - i..] == s[next..];
      if piece == Command {
        assert Pieces(s[i..])[0] == Command;
        return Err(Substitution);
      }
      FilledStep(piece, Pieces(s[next..]), lookup, b);
      b := b + PieceText(piece, lookup);
      i := next;
    }
    FilledStart(Pieces(s[i..]), lookup);
    assert b + "" == b;
    return Ok(b);
  }

  lemma FilledStart(pieces: seq<Piece>, lookup: Lookup)
    ensures pieces == [] ==> Filled(pieces, lookup) == ""
    ensures Filled(pieces, lookup) == "" + Filled(pieces, lookup)
  {
    assert "" + Filled(pieces, lookup) == Filled(pieces, lookup);
  }

  lemma FilledStep(piece: Piece, rest: seq<Piece>, lookup: Lookup, was: string)
    ensures was + Filled([piece] + rest, lookup) == (was + PieceText(piece, lookup)) + Filled(rest, lookup)
    ensures Command in [piece] + rest <==> piece == Command || Command in rest
  {
    assert ([piece] + rest)[1..] == rest;
    assert was + (PieceText(piece, lookup) + Filled(rest, lookup)) == (was + PieceText(piece, lookup)) + Filled(rest, lookup);
  }

  // --- values and assignments ---------------------------------------------------------------------

  /** What a double-quoted text means up to its closing quote, before expansion, and what
      follows the quote. */
  function Quoted(s: string): Option<(string, string)>
    decreases |s|
  {
    if s == "" then None
    else if s[0] == '"' then Some(("", s[1..]))
    else if s[0] == '\\' then
      if |s| == 1 then None
      else
        match Quoted(s[2..])
        case None => None
        case Some((text, rest)) => Some(([s[1]] + text, rest))
    else
      match Quoted(s[1..])
      case None => None
      case Some((text, rest)) => Some(([s[0]] + text, rest))
  }

  /** The length of an unquoted word. */
  function Unquoted(s: string): (end: nat)
    ensures end <= |s|
  {
    if s == "" || s[0] == ' ' || s[0] == '\t' then 0 else 1 + Unquoted(s[1..])
  }

  /** A value as written: the text to expand, whether it is, and what follows it. */
  datatype Written = Written(text: string, literal: bool, trailing: string)

  function ReadValue(s: string, home: string): Result<Written, ConfError> {
    if s != "" && s[0] == '\'' then
      var end := IndexOf(s[1..], '\'');
      if end == |s| - 1 then Err(UnterminatedSingle) else Ok(Written(s[1..1 + end], true, s[end + 2..]))
    else if s != "" && s[0] == '"' then
      match Quoted(s[1..])
      case None => Err(UnterminatedDouble)
      case Some((text, rest)) => Ok(Written(text, false, rest))
    else
      var end := Unquoted(s);
      var word := s[..end];
      Ok(Written(if "~/" <= word then home + word[1..] else word, false, s[end..]))
  }

  function Meaning(w: Written, lookup: Lookup): Result<string, ConfError> {
    if w.literal then Ok(w.text) else Expand(w.text, lookup)
  }

  /** parseValue */
  function ParseValue(s: string, home: string, lookup: Lookup): Result<(string, string), ConfError> {
    match ReadValue(s, home)
    case Err(e) => Err(e)
    case Ok(w) =>
      match Meaning(w, lookup)
      case Err(e) => Err(e)
      case Ok(value) => Ok((value, w.trailing))
  }

  method ReadText(s: string, home: string, lookup: Lookup) returns (parsed: Result<(string, string), ConfError>)
    ensures parsed == ParseValue(s, home, lookup)
  {
    hide Expand, Pieces;
    if s != "" && s[0] == '\'' {
      var end := IndexOf(s[1..], '\'');
      if end == |s| - 1 {
        return Err(UnterminatedSingle);
      }
      return Ok((s[1..1 + end], s[end + 2..]));
    }
    if s != "" && s[0] == '"' {
      var b := "";
      var i := 1;
      PrefixedTwice("", "", Quoted(s[1..]));
      while i < |s|
        invariant 1 <= i <= |s|
        invariant Quoted(s[1..]) == Prefixed(b, Quoted(s[i..]))
      {
        ghost var left := s[i..];
        if s[i] == '\\' {
          if i + 1 < |s| {
            assert left[2..] == s[i + 2..];
            PrefixedTwice(b, [s[i + 1]], Quoted(s[i + 2..]));
            i := i + 1;
            b := b + [s[i]];
          }
        } else if s[i] == '"' {
          var value := ExpandText(b, lookup);
          assert left[1..] == s[i + 1..];
          assert b + "" == b;
          return if value.Ok? then Ok((value.value, s[i + 1..])) else Err(value.error);
        } else {
          assert left[1..] == s[i + 1..];
          PrefixedTwice(b, [s[i]], Quoted(s[i + 1..]));
          b := b + [s[i]];
        }
        i := i + 1;
      }
      return Err(UnterminatedDouble);
    }
    var end := Unquoted(s);
    var word := s[..end];
    if "~/" <= word {
      word := home + word[1..];
    }
    var value := ExpandText(word, lookup);
    return if value.Ok? then Ok((value.value, s[end..])) else Err(value.error);
  }

  function Prefixed(b: string, rest: Option<(string, string)>): Option<(string, string)> {
    match rest
    case None => None
    case Some((text, trailing)) => Some((b + text, trailing))
  }

  lemma PrefixedTwice(a: string, b: string, rest: Option<(string, string)>)
    ensures Prefixed("", rest) == rest
    ensures Prefixed(a, Prefixed(b, rest)) == Prefixed(a + b, rest)
  {
    if rest.Some? {
      assert "" + rest.value.0 == rest.value.0;
      assert a + (b + rest.value.0) == (a + b) + rest.value.0;
    }
  }

  /** A line that assigns: the name, and what is written after the equals sign. */
  function SplitAssignment(line: string): Result<Option<(string, string)>, ConfError> {
    var text := TrimBlanks(line);
    if text == "" || text[0] == '#' then Ok(None)
    else
      var rest := if "export " <= text then TrimBlanks(text[7..]) else text;
      var eq := IndexOf(rest, '=');
      if eq == 0 || eq == |rest| || !IsName(rest[..eq]) then Err(NotAssignment)
      else Ok(Some((rest[..eq], rest[eq + 1..])))
  }

  predicate Trails(trailing: string) {
    TrimBlanks(trailing) == "" || TrimBlanks(trailing)[0] == '#'
  }

  /** parseAssignment: None for blanks and comments. */
  function ParseAssignment(line: string, home: string, lookup: Lookup): Result<Option<(string, string)>, ConfError> {
    match SplitAssignment(line)
    case Err(e) => Err(e)
    case Ok(None) => Ok(None)
    case Ok(Some((name, written))) =>
      match ParseValue(written, home, lookup)
      case Err(e) => Err(e)
      case Ok((value, trailing)) => if Trails(trailing) then Ok(Some((name, value))) else Err(TrailingText)
  }

  function NoVariables(name: string): string { "" }

  /** AssignmentName: the name alone, with every variable empty. */
  function AssignmentName(line: string, home: string): Result<Option<string>, ConfError> {
    match ParseAssignment(line, home, NoVariables)
    case Err(e) => Err(e)
    case Ok(None) => Ok(None)
    case Ok(Some((name, _))) => Ok(Some(name))
  }

  // --- what the value depends on ----------------------------------------------------------------

  function PieceRefs(pieces: seq<Piece>): set<string> {
    if pieces == [] then {} else (if pieces[0].Ref? then {pieces[0].name} else {}) + PieceRefs(pieces[1..])
  }

  /** The names a line's value looks up. */
  function Refs(line: string, home: string): set<string> {
    match SplitAssignment(line)
    case Ok(Some((_, written))) =>
      (match ReadValue(written, home)
       case Ok(w) => if w.literal then {} else PieceRefs(Pieces(w.text))
       case Err(_) => {})
    case _ => {}
  }

  lemma {:induction false} FilledDepends(pieces: seq<Piece>, f: Lookup, g: Lookup)
    requires forall n <- PieceRefs(pieces) :: f(n) == g(n)
    ensures Filled(pieces, f) == Filled(pieces, g)
  {
    if pieces != [] {
      FilledDepends(pieces[1..], f, g);
    }
  }

  /** Whether a line parses, how it fails and the name it assigns never depend on the
      variables; its value depends only on those it names. */
  lemma DependsOnlyOnRefs(line: string, home: string, f: Lookup, g: Lookup)
    ensures var a, b := ParseAssignment(line, home, f), ParseAssignment(line, home, g);
            && (a.Err? <==> b.Err?) && (a.Err? ==> a == b)
            && (a.Ok? ==> (a.value.Some? <==> b.value.Some?))
            && (a.Ok? && a.value.Some? ==> a.value.value.0 == b.value.value.0)
            && ((forall n <- Refs(line, home) :: f(n) == g(n)) ==> a == b)
  {
    hide Pieces, SplitAssignment, ReadValue, Trails, PieceRefs, Filled;
    var split := SplitAssignment(line);
    if split.Ok? && split.value.Some? {
      var read := ReadValue(split.value.value.1, home);
      if read.Ok? && !read.value.literal && forall n <- Refs(line, home) :: f(n) == g(n) {
        FilledDepends(Pieces(read.value.text), f, g);
      }
    }
  }

  // --- a spelling for every value -----------------------------------------------------------------

  /** A backslash before every dollar, for expand. */
  function EscapeDollars(v: string): string {
    if v == "" then "" else (if v[0] == '$' then "\\$" else [v[0]]) + EscapeDollars(v[1..])
  }

  /** A backslash before every backslash and quote, for the double-quoted form. */
  function EscapeQuotes(s: string): string {
    if s == "" then "" else (if s[0] == '\\' || s[0] == '"' then ['\\', s[0]] else [s[0]]) + EscapeQuotes(s[1..])
  }

  function Spelling(v: string): string {
    "\"" + EscapeQuotes(EscapeDollars(v)) + "\""
  }

  lemma {:induction false} QuotedEscaped(s: string, rest: string)
    ensures Quoted(EscapeQuotes(s) + "\"" + rest) == Some((s, rest))
  {
    var tail := "\"" + rest;
    assert EscapeQuotes(s) + "\"" + rest == EscapeQuotes(s) + tail;
    if s == "" {
      assert "" + tail == tail;
    } else {
      var t := EscapeQuotes(s[1..]) + "\"" + rest;
      QuotedEscaped(s[1..], rest);
      assert [s[0]] + s[1..] == s;
      if s[0] == '\\' || s[0] == '"' {
        assert EscapeQuotes(s) + "\"" + rest == ['\\', s[0]] + t;
        assert (['\\', s[0]] + t)[2..] == t;
      } else {
        assert EscapeQuotes(s) + "\"" + rest == [s[0]] + t;
        assert ([s[0]] + t)[1..] == t;
      }
    }
  }

  /** Escaped dollars leave nothing to look up and nothing to run. */
  lemma {:induction false} EscapedPieces(v: string, lookup: Lookup)
    ensures Filled(Pieces(EscapeDollars(v)), lookup) == v
    ensures Command !in Pieces(EscapeDollars(v))
    ensures v != "" && v[0] != '$' ==> EscapeDollars(v)[0] == v[0]
    ensures '`' in EscapeDollars(v) <==> '`' in v
  {
    if v != "" {
      EscapedPieces(v[1..], lookup);
      var rest := EscapeDollars(v[1..]);
      assert v == [v[0]] + v[1..];
      if v[0] == '$' {
        var s := "\\$" + rest;
        assert s[2..] == rest && EscapeDollars(v) == s;
        assert Pieces(s) == [Plain("$")] + Pieces(rest);
      } else {
        var s := [v[0]] + rest;
        assert s[1..] == rest && EscapeDollars(v) == s;
        NoDollarFirst(v[1..]);
        assert Pieces(s) == [Plain([v[0]])] + Pieces(rest);
      }
    }
  }

  /** An escaped text never starts with a bare dollar. */
  lemma NoDollarFirst(v: string)
    ensures EscapeDollars(v) != "" ==> EscapeDollars(v)[0] != '$'
  {
  }

  /** Every value without a backtick has a double-quoted spelling that reads back exactly,
      whatever follows it and whatever the variables hold. */
  lemma SpellingReadsBack(v: string, rest: string, home: string, lookup: Lookup)
    requires '`' !in v
    ensures ParseValue(Spelling(v) + rest, home, lookup) == Ok((v, rest))
  {
    hide EscapeQuotes, EscapeDollars, Quoted, Pieces, Filled;
    var text := EscapeDollars(v);
    EscapedPieces(v, lookup);
    QuotedEscaped(text, rest);
    var s := Spelling(v) + rest;
    assert s[1..] == EscapeQuotes(text) + "\"" + rest;
  }

  /** Texts that double quotes can hold, for every home and all variables. */
  ghost predicate Spells(s: string, v: string) {
    s != "" && s[0] == '"' && forall home, lookup :: ParseValue(s, home, lookup) == Ok((v, ""))
  }

  /** A value can be written in double quotes exactly when it holds no backtick. */
  lemma SpellableExactly(v: string)
    ensures (exists s :: Spells(s, v)) <==> '`' !in v
  {
    if '`' !in v {
      forall home, lookup ensures ParseValue(Spelling(v), home, lookup) == Ok((v, "")) {
        SpellingReadsBack(v, "", home, lookup);
        assert Spelling(v) + "" == Spelling(v);
      }
      assert Spells(Spelling(v), v);
    }
    if exists s :: Spells(s, v) {
      var s :| Spells(s, v);
      var nothing: Lookup := _ => "";
      assert ParseValue(s, "", nothing) == Ok((v, ""));
      var text := Quoted(s[1..]).value.0;
      FilledFrom(text, nothing);
    }
  }

  /** With every variable empty, what is left comes from the text. */
  lemma {:induction false} FilledFrom(s: string, nothing: Lookup)
    requires '`' !in s && forall n :: nothing(n) == ""
    ensures '`' !in Filled(Pieces(s), nothing)
    decreases |s|
  {
    if s != "" {
      var (piece, n) := FirstPiece(s);
      assert forall c <- s[n..] :: c in s;
      FilledFrom(s[n..], nothing);
      assert s[0] in s;
      if piece.Command? {
        assert Filled([piece], nothing) == PieceText(piece, nothing) + Filled([piece][1..], nothing);
      } else {
        assert ([piece] + Pieces(s[n..]))[1..] == Pieces(s[n..]);
      }
    }
  }

  /** A whole line written so reads back as that name and value. */
  lemma AssignmentReadsBack(name: string, v: string, home: string, lookup: Lookup)
    requires name != "" && IsName(name) && '`' !in v
    ensures ParseAssignment(name + "=" + Spelling(v), home, lookup) == Ok(Some((name, v)))
  {
    hide ParseValue, Spelling;
    var line := name + "=" + Spelling(v);
    assert line[0] == name[0] && IsNameByte(name[0], 0);
    forall i | 0 <= i < |name| ensures name[i] != '=' && name[i] != ' ' { assert IsNameByte(name[i], i); }
    var word := "export ";
    assert line[|name|] == '=' && forall i :: 0 <= i < 7 ==> word[i] != '=';
    var k := if |name| < 7 then |name| else 6;
    assert line[k] != word[k];
    assert !(word <= line);
    IndexOfAt(name, '=', Spelling(v));
    assert name + ['='] + Spelling(v) == line;
    assert line[..|name|] == name && line[|name| + 1..] == Spelling(v);
    SpellingReadsBack(v, "", home, lookup);
    assert Spelling(v) + "" == Spelling(v);
  }

  // --- files ------------------------------------------------------------------------------------

  type Env = map<string, string>

  /** What parseFile accumulates: variables, settings by key, and unknown settings by line. */
  datatype Parsed = Parsed(locals: Env, values: Env, warnings: seq<(nat, string)>)

  datatype BadLine = BadLine(line: nat, error: ConfError)

  function LookIn(locals: Env, env: Lookup): Lookup {
    v => if v in locals then locals[v] else env(v)
  }

  /** The setting a variable is, if its name says it is one. */
  function SettingOf(name: string): Option<string> {
    if PREFIX <= name then Some(name[|PREFIX|..]) else None
  }

  function Assign(p: Parsed, line: nat, name: string, value: string): Parsed {
    var locals := p.locals[name := value];
    match SettingOf(name)
    case None => p.(locals := locals)
    case Some(key) =>
      if key in KEYS then p.(locals := locals, values := p.values[key := value])
      else p.(locals := locals, warnings := p.warnings + [(line, name)])
  }

  function ParseLines(lines: seq<string>, home: string, env: Lookup): Result<Parsed, BadLine> {
    if lines == [] then Ok(Parsed(map[], map[], []))
    else
      var n := |lines| - 1;
      match ParseLines(lines[..n], home, env)
      case Err(e) => Err(e)
      case Ok(p) =>
        match ParseAssignment(lines[n], home, LookIn(p.locals, env))
        case Err(e) => Err(BadLine(n + 1, e))
        case Ok(None) => Ok(p)
        case Ok(Some((name, value))) => Ok(Assign(p, n + 1, name, value))
  }

  method ReadAssignment(line: string, home: string, lookup: Lookup) returns (parsed: Result<Option<(string, string)>, ConfError>)
    ensures parsed == ParseAssignment(line, home, lookup)
  {
    hide ParseValue;
    var rest := TrimBlanks(line);
    if rest == "" || rest[0] == '#' {
      return Ok(None);
    }
    if "export " <= rest {
      rest := TrimBlanks(rest[7..]);
    }
    var eq := IndexOf(rest, '=');
    if eq == 0 || eq == |rest| || !IsName(rest[..eq]) {
      return Err(NotAssignment);
    }
    var value := ReadText(rest[eq + 1..], home, lookup);
    if value.Err? {
      return Err(value.error);
    }
    var trailing := TrimBlanks(value.value.1);
    if trailing != "" && trailing[0] != '#' {
      return Err(TrailingText);
    }
    return Ok(Some((rest[..eq], value.value.0)));
  }

  /** parseFile: a missing file sets nothing; a line that does not parse refuses the file. */
  method ParseFile(text: Option<string>, home: string, env: Lookup) returns (parsed: Result<(Env, seq<(nat, string)>), BadLine>)
    ensures match text
            case None => parsed == Ok((map[], []))
            case Some(body) =>
              match ParseLines(ScanLines(body), home, env)
              case Err(e) => parsed == Err(e)
              case Ok(p) => parsed == Ok((p.values, p.warnings))
  {
    hide ParseAssignment, ScanLines;
    if text.None? {
      return Ok((map[], []));
    }
    var lines := ScanLines(text.value);
    var locals: Env, values: Env, warnings: seq<(nat, string)> := map[], map[], [];
    for i := 0 to |lines|
      invariant ParseLines(lines[..i], home, env) == Ok(Parsed(locals, values, warnings))
    {
      assert lines[..i + 1][..i] == lines[..i];
      var line := ReadAssignment(lines[i], home, LookIn(locals, env));
      if line.Err? {
        StaysBad(lines, i + 1, home, env);
        assert lines[..|lines|] == lines;
        return Err(BadLine(i + 1, line.error));
      }
      if line.value.Some? {
        var (name, value) := line.value.value;
        locals := locals[name := value];
        match SettingOf(name)
        case None =>
        case Some(key) =>
          if key in KEYS {
            values := values[key := value];
          } else {
            warnings := warnings + [(i + 1, name)];
          }
      }
    }
    assert lines[..|lines|] == lines;
    return Ok((values, warnings));
  }

  /** The first bad line is the one reported. */
  lemma {:induction false} StaysBad(lines: seq<string>, k: nat, home: string, env: Lookup)
    requires k <= |lines| && ParseLines(lines[..k], home, env).Err?
    ensures ParseLines(lines, home, env) == ParseLines(lines[..k], home, env)
    decreases |lines|
  {
    if k < |lines| {
      assert lines[..|lines| - 1][..k] == lines[..k];
      StaysBad(lines[..|lines| - 1], k, home, env);
    } else {
      assert lines[..k] == lines;
    }
  }
}
