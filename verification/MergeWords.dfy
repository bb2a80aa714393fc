/** Exactly when a merge preserves the settings, under every environment: values are followed
    as words over characters and environment names, which say how they read everywhere. */
module MergeWords {
  import opened Text
  import opened ShellConf
  import opened Merge

  datatype Sym = Ch(c: char) | Var(name: string)

  /** A value with its environment names still open. */
  type Word = seq<Sym>

  function Chars(s: string): Word {
    seq(|s|, i requires 0 <= i < |s| => Ch(s[i]))
  }

  function SymText(s: Sym, env: Lookup): string {
    match s
    case Ch(c) => [c]
    case Var(name) => env(name)
  }

  function Eval(w: Word, env: Lookup): string {
    if w == [] then "" else SymText(w[0], env) + Eval(w[1..], env)
  }

  function EvalAll(words: map<string, Word>, env: Lookup): map<string, string> {
    map n | n in words :: Eval(words[n], env)
  }

  // --- a file read with its environment open ------------------------------------------------------

  function PieceWord(piece: Piece, locals: map<string, Word>): Word {
    match piece
    case Plain(text) => Chars(text)
    case Ref(name) => if name in locals then locals[name] else [Var(name)]
    case Command => []
  }

  function FilledWord(pieces: seq<Piece>, locals: map<string, Word>): Word {
    if pieces == [] then [] else PieceWord(pieces[0], locals) + FilledWord(pieces[1..], locals)
  }

  /** What a line assigns. */
  function LineWord(line: string, home: string, locals: map<string, Word>): Word {
    match SplitAssignment(line)
    case Ok(Some((_, written))) =>
      (match ReadValue(written, home)
       case Ok(w) => if w.literal then Chars(w.text) else FilledWord(Pieces(w.text), locals)
       case Err(_) => [])
    case _ => []
  }

  /** The variables and the settings of a file. */
  datatype Words = Words(locals: map<string, Word>, values: map<string, Word>)

  function AssignWord(words: Words, name: string, word: Word): Words {
    var key := SettingOf(name);
    Words(words.locals[name := word],
          if key.Some? && key.value in KEYS then words.values[key.value := word] else words.values)
  }

  function ReadWords(lines: seq<string>, home: string): Words {
    if lines == [] then Words(map[], map[])
    else
      var n := |lines| - 1;
      var before := ReadWords(lines[..n], home);
      match Named(lines[n], home)
      case None => before
      case Some(name) =>
        AssignWord(before, name, LineWord(lines[n], home, before.locals))
  }

  lemma {:induction false} EvalAppend(a: Word, b: Word, env: Lookup)
    ensures Eval(a + b, env) == Eval(a, env) + Eval(b, env)
  {
    if a == [] {
      assert a + b == b;
    } else {
      assert (a + b)[1..] == a[1..] + b;
      EvalAppend(a[1..], b, env);
      assert SymText(a[0], env) + (Eval(a[1..], env) + Eval(b, env)) == (SymText(a[0], env) + Eval(a[1..], env)) + Eval(b, env);
    }
  }

  lemma {:induction false} EvalChars(s: string, env: Lookup)
    ensures Eval(Chars(s), env) == s
  {
    if s != "" {
      EvalChars(s[1..], env);
      assert Chars(s)[1..] == Chars(s[1..]);
      assert s == [s[0]] + s[1..];
    }
  }

  lemma {:induction false} FilledMeans(pieces: seq<Piece>, locals: map<string, Word>, env: Lookup)
    ensures Filled(pieces, LookIn(EvalAll(locals, env), env)) == Eval(FilledWord(pieces, locals), env)
  {
    if pieces != [] {
      FilledMeans(pieces[1..], locals, env);
      EvalAppend(PieceWord(pieces[0], locals), FilledWord(pieces[1..], locals), env);
      match pieces[0]
      case Plain(text) => EvalChars(text, env);
      case Ref(name) =>
        if name !in locals {
          assert [Var(name)][1..] == [];
          assert env(name) + "" == env(name);
        }
      case Command =>
    }
  }

  lemma LineMeans(line: string, home: string, locals: map<string, Word>, env: Lookup)
    ensures match ParseAssignment(line, home, LookIn(EvalAll(locals, env), env))
            case Ok(Some((_, value))) => value == Eval(LineWord(line, home, locals), env)
            case _ => true
  {
    hide SplitAssignment, ReadValue, Pieces, Trails, Eval, EvalAll, Filled, FilledWord;
    var split := SplitAssignment(line);
    if split.Ok? && split.value.Some? {
      var read := ReadValue(split.value.value.1, home);
      if read.Ok? {
        FilledMeans(Pieces(read.value.text), locals, env);
        EvalChars(read.value.text, env);
      }
    }
  }

  lemma EvalUpdate(words: map<string, Word>, name: string, word: Word, env: Lookup)
    ensures EvalAll(words[name := word], env) == EvalAll(words, env)[name := Eval(word, env)]
  {
    hide Eval;
  }

  /** One more assignment, with the environment given and with it open. */
  lemma AssignMeans(p: Parsed, words: Words, at: nat, name: string, word: Word, env: Lookup)
    requires p.locals == EvalAll(words.locals, env) && p.values == EvalAll(words.values, env)
    ensures var q := Assign(p, at, name, Eval(word, env));
            && q.locals == EvalAll(AssignWord(words, name, word).locals, env)
            && q.values == EvalAll(AssignWord(words, name, word).values, env)
  {
    hide Eval, EvalAll, KEYS;
    EvalUpdate(words.locals, name, word, env);
    if SettingOf(name).Some? {
      EvalUpdate(words.values, SettingOf(name).value, word, env);
    }
  }

  /** The words of a file say what parseFile makes of it in every environment. */
  lemma {:induction false} WordsMean(lines: seq<string>, home: string, env: Lookup)
    requires AllParse(lines, home)
    ensures var p := ParseLines(lines, home, env);
            p.Ok? && p.value.locals == EvalAll(ReadWords(lines, home).locals, env)
                  && p.value.values == EvalAll(ReadWords(lines, home).values, env)
  {
    hide ParseAssignment, LineWord, AssignmentName, Eval, EvalAll, Named, Assign, AssignWord;
    if lines == [] {
      NothingRead(env);
    } else {
      var n := |lines| - 1;
      assert lines == lines[..n] + [lines[n]];
      WordsMean(lines[..n], home, env);
      ParsedNames(lines, home, env);
      var words := ReadWords(lines[..n], home);
      var lookup := LookIn(EvalAll(words.locals, env), env);
      LineMeans(lines[n], home, words.locals, env);
      NamedAnyway(lines[n], home, lookup);
      var line := ParseAssignment(lines[n], home, lookup);
      if line.Ok? && line.value.Some? {
        var name := line.value.value.0;
        AssignMeans(ParseLines(lines[..n], home, env).value, words, n + 1, name, LineWord(lines[n], home, words.locals), env);
      }
    }
  }

  lemma NothingRead(env: Lookup)
    ensures EvalAll(map[], env) == map[]
  {
  }

  // --- words that read alike everywhere ---------------------------------------------------------------

  lemma StartsWith(s: Sym, rest: Word, env: Lookup, c: char)
    requires SymText(s, env) != "" && SymText(s, env)[0] == c
    ensures Eval([s] + rest, env) != "" && Eval([s] + rest, env)[0] == c
  {
    assert ([s] + rest)[1..] == rest;
  }

  /** Words that differ read differently somewhere. */
  lemma {:induction false} Apart(u: Word, v: Word) returns (env: Lookup)
    requires u != v
    ensures Eval(u, env) != Eval(v, env)
    decreases |u|
  {
    if u == [] || v == [] {
      env := _ => "a";
      var w := if u == [] then v else u;
      assert SymText(w[0], env) != "";
    } else if u[0] == v[0] {
      assert u == [u[0]] + u[1..] && v == [v[0]] + v[1..];
      env := Apart(u[1..], v[1..]);
      Cancel(SymText(u[0], env), Eval(u[1..], env), Eval(v[1..], env));
    } else {
      assert u == [u[0]] + u[1..] && v == [v[0]] + v[1..];
      env := Telling(u[0], v[0]);
      StartsWith(u[0], u[1..], env, SymText(u[0], env)[0]);
      StartsWith(v[0], v[1..], env, SymText(v[0], env)[0]);
    }
  }

  lemma Cancel(head: string, a: string, b: string)
    requires a != b
    ensures head + a != head + b
  {
    assert (head + a)[|head|..] == a && (head + b)[|head|..] == b;
  }

  /** An environment that tells two symbols apart by their first character. */
  lemma Telling(s: Sym, t: Sym) returns (env: Lookup)
    requires s != t
    ensures SymText(s, env) != "" && SymText(t, env) != "" && SymText(s, env)[0] != SymText(t, env)[0]
  {
    match s
    case Ch(a) =>
      var other := if a == 'a' then "b" else "a";
      env := _ => other;
    case Var(n) =>
      match t {
        case Ch(b) =>
          var other := if b == 'a' then "b" else "a";
          env := _ => other;
        case Var(m) =>
          env := x => if x == n then "a" else "b";
      }
  }

  /** Maps of words read alike in every environment exactly when they are equal. */
  lemma AlikeExactly(a: map<string, Word>, b: map<string, Word>)
    ensures (forall env :: EvalAll(a, env) == EvalAll(b, env)) <==> a == b
  {
    if a != b {
      var nowhere: Lookup := _ => "";
      if a.Keys != b.Keys {
        assert EvalAll(a, nowhere).Keys == a.Keys && EvalAll(b, nowhere).Keys == b.Keys;
      } else {
        var n :| n in a && a[n] != b[n];
        var env := Apart(a[n], b[n]);
        assert EvalAll(a, env)[n] != EvalAll(b, env)[n];
      }
    }
  }

  // --- the merge -------------------------------------------------------------------------------------------

  /** What a file sets in an environment, if it parses. */
  function Settings(text: string, home: string, env: Lookup): Option<map<string, string>> {
    match ParseLines(ScanLines(text), home, env)
    case Ok(p) => Some(p.values)
    case Err(_) => None
  }

  lemma {:induction false} InactiveWords(a: seq<string>, b: seq<string>, home: string)
    requires NothingActive(b, home)
    ensures ReadWords(a + b, home) == ReadWords(a, home)
  {
    hide AssignmentName, LineWord, KEYS;
    if b == [] {
      assert a + b == a;
    } else {
      var n := |b| - 1;
      assert (a + b)[..|a + b| - 1] == a + b[..n] && (a + b)[|a + b| - 1] == b[n] && b[n] in b;
      assert forall l <- b[..n] :: l in b;
      InactiveWords(a, b[..n], home);
    }
  }

  /** A merge preserves what a file sets, in every environment, exactly when each setting is
      the same word through the placed lines as through the old file. */
  lemma SettingsSurviveExactly(current: string, shipped: string, home: string)
    requires AllParse(Split(current, '\n'), home) && AllParse(Split(shipped, '\n'), home)
    ensures var lines, base := Split(current, '\n'), Split(shipped, '\n');
            var merged := Join(MergedLines(lines, base, home), "\n");
            (forall env :: Settings(merged, home, env) == Settings(current, home, env))
            <==> ReadWords(Place(base, Values(lines, home), home).out, home).values == ReadWords(lines, home).values
  {
    hide AssignmentName, Place, Order, Values, OrphanBlock, Carried, Orphans, HasHome, Split, Join, ScanLines, ParseLines, AllParse,
         ReadWords, EvalAll, CARRIED_HEADER;
    var lines, base := Split(current, '\n'), Split(shipped, '\n');
    JoinOfSplit(current, '\n');
    JoinOfSplit(shipped, '\n');
    var values := Values(lines, home);
    var p := Place(base, values, home);
    OrderIsKeys(lines, home);
    SplitOrder(Order(lines, home), p.placed);
    var orphans := Orphans(Order(lines, home), p.placed);
    BlockIsInactive(orphans, values, home);
    InactiveWords(p.out, OrphanBlock(orphans, values), home);
    var merged := MergedLines(lines, base, home);
    var text := Join(merged, "\n");
    MergedIsLines(lines, base, home);
    forall env
      ensures Settings(current, home, env) == Some(EvalAll(ReadWords(lines, home).values, env))
      ensures Settings(text, home, env) == Some(EvalAll(ReadWords(merged, home).values, env))
    {
      MergedParses(current, shipped, home, env);
      FinalBlank(current, home, env);
      FinalBlank(text, home, env);
      ParsedNames(merged, home, env);
      WordsMean(lines, home, env);
      WordsMean(merged, home, env);
    }
    AlikeExactly(ReadWords(merged, home).values, ReadWords(lines, home).values);
  }
}
