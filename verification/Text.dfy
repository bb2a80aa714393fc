/** The text functions the program takes from Go's standard library, stated over
    strings, and the laws of them that the other modules lean on. */
module Text {

  datatype Option<+T> = None | Some(value: T)

  datatype Result<+T, +E> = Ok(value: T) | Err(error: E)

  /** unicode.IsSpace, which strings.TrimSpace and strings.Fields are built on. */
  predicate IsSpace(c: char) {
    c == ' ' || '\t' <= c <= '\r' || c == '\U{85}' || c == '\U{A0}' || c == '\U{1680}'
    || '\U{2000}' <= c <= '\U{200A}' || '\U{2028}' <= c <= '\U{2029}'
    || c == '\U{202F}' || c == '\U{205F}' || c == '\U{3000}'
  }

  function TrimLeft(s: string): string {
    if s != "" && IsSpace(s[0]) then TrimLeft(s[1..]) else s
  }

  function TrimRight(s: string): string {
    if s != "" && IsSpace(s[|s| - 1]) then TrimRight(s[..|s| - 1]) else s
  }

  /** strings.TrimSpace */
  function TrimSpace(s: string): string {
    TrimRight(TrimLeft(s))
  }

  /** strings.TrimLeft(s, " \t") */
  function TrimBlanks(s: string): string {
    if s != "" && (s[0] == ' ' || s[0] == '\t') then TrimBlanks(s[1..]) else s
  }

  /** The index of the first `c`, or the length of `s` when there is none. */
  function IndexOf(s: string, c: char): (k: nat)
    ensures k <= |s|
    ensures k < |s| ==> s[k] == c
    ensures forall i :: 0 <= i < k ==> s[i] != c
  {
    if s == "" || s[0] == c then 0 else 1 + IndexOf(s[1..], c)
  }

  function WordLength(s: string): (k: nat)
    ensures k <= |s|
  {
    if s == "" || IsSpace(s[0]) then 0 else 1 + WordLength(s[1..])
  }

  /** strings.Fields */
  function Fields(s: string): seq<string>
    decreases |s|
  {
    if s == "" then []
    else if IsSpace(s[0]) then Fields(s[1..])
    else [s[..WordLength(s)]] + Fields(s[WordLength(s)..])
  }

  /** strings.Join */
  function Join(parts: seq<string>, sep: string): string {
    if parts == [] then "" else if |parts| == 1 then parts[0] else parts[0] + sep + Join(parts[1..], sep)
  }

  /** strings.Split with a one-character separator: never empty. */
  function Split(s: string, c: char): (parts: seq<string>)
    ensures parts != []
    decreases |s|
  {
    var k := IndexOf(s, c);
    if k == |s| then [s] else [s[..k]] + Split(s[k + 1..], c)
  }

  /** bufio.ScanLines: the lines of a text, with no line after a final newline. */
  function ScanLines(s: string): seq<string> {
    var parts := Split(s, '\n');
    if parts[|parts| - 1] == "" then parts[..|parts| - 1] else parts
  }

  /** A newline after every line. */
  function Unlines(lines: seq<string>): string {
    if lines == [] then "" else lines[0] + "\n" + Unlines(lines[1..])
  }

  /** A field as strings.Fields returns it. */
  predicate IsWord(s: string) {
    s != "" && forall c <- s :: !IsSpace(c)
  }

  predicate OneLine(s: string) {
    '\n' !in s
  }

  /** A text that starts with a visible character keeps it when trimmed. */
  lemma {:induction false} TrimRightKeepsHead(s: string)
    requires s != "" && !IsSpace(s[0])
    ensures TrimRight(s) != "" && TrimRight(s)[0] == s[0] && TrimRight(s) <= s
  {
    if IsSpace(s[|s| - 1]) {
      TrimRightKeepsHead(s[..|s| - 1]);
    }
  }

  lemma {:induction false} WordLengthOf(w: string, rest: string)
    requires forall c <- w :: !IsSpace(c)
    requires rest == "" || IsSpace(rest[0])
    ensures WordLength(w + rest) == |w|
  {
    if w == "" {
      assert w + rest == rest;
    } else {
      assert (w + rest)[1..] == w[1..] + rest;
      WordLengthOf(w[1..], rest);
    }
  }

  lemma FieldsOfWordThen(w: string, rest: string)
    requires IsWord(w)
    requires rest == "" || IsSpace(rest[0])
    ensures Fields(w + rest) == [w] + Fields(rest)
  {
    WordLengthOf(w, rest);
    assert (w + rest)[..|w|] == w && (w + rest)[|w|..] == rest;
  }

  /** Words joined by single spaces are read back by Fields. */
  lemma {:induction false} FieldsOfJoin(ws: seq<string>)
    requires forall w <- ws :: IsWord(w)
    ensures Fields(Join(ws, " ")) == ws
  {
    if |ws| == 1 {
      FieldsOfWordThen(ws[0], "");
      assert ws[0] + "" == ws[0];
    } else if ws != [] {
      var tail := Join(ws[1..], " ");
      FieldsOfWordThen(ws[0], " " + tail);
      assert ws[0] + " " + tail == ws[0] + (" " + tail);
      assert (" " + tail)[1..] == tail;
      FieldsOfJoin(ws[1..]);
    }
  }

  lemma {:induction false} FieldsAreWords(s: string)
    ensures forall w <- Fields(s) :: IsWord(w)
    decreases |s|
  {
    if s == "" {
    } else if IsSpace(s[0]) {
      FieldsAreWords(s[1..]);
    } else {
      var k := WordLength(s);
      WordHasNoSpace(s);
      FieldsAreWords(s[k..]);
    }
  }

  lemma {:induction false} WordHasNoSpace(s: string)
    ensures forall i :: 0 <= i < WordLength(s) ==> !IsSpace(s[i])
    ensures WordLength(s) < |s| ==> IsSpace(s[WordLength(s)])
  {
    if s != "" && !IsSpace(s[0]) {
      WordHasNoSpace(s[1..]);
      assert forall i :: 1 <= i < WordLength(s) ==> s[i] == s[1..][i - 1];
    }
  }

  /** Joined words neither start nor end with a space. */
  lemma {:induction false} JoinedWordsAreTrim(ws: seq<string>)
    requires ws != [] && forall w <- ws :: IsWord(w)
    ensures Join(ws, " ") != "" && !IsSpace(Join(ws, " ")[0]) && !IsSpace(Join(ws, " ")[|Join(ws, " ")| - 1])
  {
    assert ws[0] in ws && IsWord(ws[0]);
    assert ws[0][0] in ws[0] && ws[0][|ws[0]| - 1] in ws[0];
    if |ws| > 1 {
      JoinedWordsAreTrim(ws[1..]);
    }
  }

  lemma TrimSpaceOfTrim(s: string)
    requires s == "" || (!IsSpace(s[0]) && !IsSpace(s[|s| - 1]))
    ensures TrimSpace(s) == s
  {
  }

  // --- lines ---------------------------------------------------------------------

  lemma IndexOfAt(a: string, c: char, b: string)
    requires c !in a
    ensures IndexOf(a + [c] + b, c) == |a|
  {
    var s := a + [c] + b;
    assert s[|a|] == c;
    assert forall i :: 0 <= i < |a| ==> s[i] == a[i] && a[i] in a;
  }

  lemma SplitAt(a: string, c: char, b: string)
    requires c !in a
    ensures Split(a + [c] + b, c) == [a] + Split(b, c)
  {
    IndexOfAt(a, c, b);
    var s := a + [c] + b;
    assert s[..|a|] == a && s[|a| + 1..] == b;
  }

  lemma SplitNone(a: string, c: char)
    requires c !in a
    ensures Split(a, c) == [a]
  {
    assert forall i :: 0 <= i < |a| ==> a[i] in a;
  }

  /** Split undoes Join, whatever the parts hold besides the separator. */
  lemma {:induction false} SplitOfJoin(parts: seq<string>, c: char)
    requires parts != [] && forall p <- parts :: c !in p
    ensures Split(Join(parts, [c]), c) == parts
  {
    if |parts| == 1 {
      SplitNone(parts[0], c);
    } else {
      SplitAt(parts[0], c, Join(parts[1..], [c]));
      SplitOfJoin(parts[1..], c);
    }
  }

  /** And Join undoes Split, on every text. */
  lemma {:induction false} JoinOfSplit(s: string, c: char)
    ensures Join(Split(s, c), [c]) == s
    ensures forall p <- Split(s, c) :: c !in p
    decreases |s|
  {
    var k := IndexOf(s, c);
    if k < |s| {
      JoinOfSplit(s[k + 1..], c);
      assert s == s[..k] + [c] + s[k + 1..];
    }
  }

  lemma {:induction false} UnlinesIsJoin(lines: seq<string>)
    requires lines != []
    ensures Unlines(lines) == Join(lines, "\n") + "\n"
  {
    if |lines| > 1 {
      UnlinesIsJoin(lines[1..]);
      assert lines[0] + "\n" + (Join(lines[1..], "\n") + "\n") == (lines[0] + "\n" + Join(lines[1..], "\n")) + "\n";
    }
  }

  lemma {:induction false} SplitOfUnlines(lines: seq<string>)
    requires forall l <- lines :: OneLine(l)
    ensures Split(Unlines(lines), '\n') == lines + [""]
  {
    if lines == [] {
      SplitNone("", '\n');
    } else {
      assert lines[0] in lines;
      SplitAt(lines[0], '\n', Unlines(lines[1..]));
      SplitOfUnlines(lines[1..]);
    }
  }

  /** Scanning reads back exactly the lines that were written out. */
  lemma ScanOfUnlines(lines: seq<string>)
    requires forall l <- lines :: OneLine(l)
    ensures ScanLines(Unlines(lines)) == lines
  {
    SplitOfUnlines(lines);
  }

  lemma {:induction false} UnlinesAppend(a: seq<string>, b: seq<string>)
    ensures Unlines(a + b) == Unlines(a) + Unlines(b)
  {
    if a == [] {
      assert a + b == b;
    } else {
      assert (a + b)[1..] == a[1..] + b;
      UnlinesAppend(a[1..], b);
    }
  }

  lemma ScannedLinesAreLines(s: string)
    ensures forall l <- ScanLines(s) :: OneLine(l)
  {
    JoinOfSplit(s, '\n');
  }

  lemma {:induction false} JoinWithFinalEmpty(lines: seq<string>)
    ensures Join(lines + [""], "\n") == Unlines(lines)
  {
    if lines != [] {
      assert (lines + [""])[1..] == lines[1..] + [""];
      JoinWithFinalEmpty(lines[1..]);
    }
  }

  lemma {:induction false} JoinedEnd(parts: seq<string>)
    requires parts != [] && parts[|parts| - 1] != "" && forall p <- parts :: OneLine(p)
    ensures var s := Join(parts, "\n"); s != "" && s[|s| - 1] != '\n'
  {
    if |parts| == 1 {
      assert parts[0] in parts && parts[0][|parts[0]| - 1] in parts[0];
    } else {
      JoinedEnd(parts[1..]);
    }
  }

  /** A text is its lines, a newline after each, give or take the final newline. */
  lemma UnlinesOfScan(s: string)
    ensures Unlines(ScanLines(s)) == if s != "" && s[|s| - 1] != '\n' then s + "\n" else s
  {
    JoinOfSplit(s, '\n');
    var parts := Split(s, '\n');
    if parts[|parts| - 1] == "" {
      assert parts == parts[..|parts| - 1] + [""];
      JoinWithFinalEmpty(parts[..|parts| - 1]);
      UnlinesEnd(parts[..|parts| - 1]);
    } else {
      JoinedEnd(parts);
      UnlinesIsJoin(parts);
    }
  }

  lemma {:induction false} UnlinesEnd(lines: seq<string>)
    ensures Unlines(lines) == "" <==> lines == []
    ensures lines != [] ==> Unlines(lines)[|Unlines(lines)| - 1] == '\n'
  {
    if |lines| > 1 {
      UnlinesEnd(lines[1..]);
    }
  }

  /** All of `a`, in order, somewhere in `b`. */
  ghost predicate Subsequence(a: seq<string>, b: seq<string>) {
    || a == []
    || (b != [] && ((a[0] == b[0] && Subsequence(a[1..], b[1..])) || Subsequence(a, b[1..])))
  }

  lemma SubsequenceLater(a: seq<string>, head: string, b: seq<string>)
    requires Subsequence(a, b)
    ensures Subsequence(a, [head] + b) && Subsequence([head] + a, [head] + b)
  {
    assert ([head] + a)[1..] == a && ([head] + b)[1..] == b;
  }

  lemma {:induction false} SubsequenceSnoc(a: seq<string>, b: seq<string>, last: string)
    requires Subsequence(a, b)
    ensures Subsequence(a, b + [last]) && Subsequence(a + [last], b + [last])
  {
    if b == [] {
      assert a + [last] == [last] && b + [last] == [last] && [last][1..] == [];
    } else {
      assert (b + [last])[1..] == b[1..] + [last];
      if a == [] {
        SubsequenceSnoc(a, b[1..], last);
      } else if a[0] == b[0] && Subsequence(a[1..], b[1..]) {
        SubsequenceSnoc(a[1..], b[1..], last);
        assert (a + [last])[1..] == a[1..] + [last];
      } else {
        SubsequenceSnoc(a, b[1..], last);
      }
    }
  }

  // --- characters --------------------------------------------------------------------------------

  const SMALL := "abcdefghijklmnopqrstuvwxyz"
  const LARGE := "ABCDEFGHIJKLMNOPQRSTUVWXYZ"
  const FIGURES := "0123456789"

  /** The white space of Unicode, one by one. */
  const SPACES: set<char> := {
    '\t', '\n', '\U{0B}', '\U{0C}', '\r', ' ', '\U{85}', '\U{A0}', '\U{1680}',
    '\U{2000}', '\U{2001}', '\U{2002}', '\U{2003}', '\U{2004}', '\U{2005}', '\U{2006}', '\U{2007}', '\U{2008}', '\U{2009}', '\U{200A}',
    '\U{2028}', '\U{2029}', '\U{202F}', '\U{205F}', '\U{3000}'}

  lemma SmallLetters(c: char)
    ensures c in SMALL <==> 'a' <= c <= 'z'
  {
    if 'a' <= c <= 'z' {
      assert SMALL[c as int - 'a' as int] == c;
    }
  }

  lemma LargeLetters(c: char)
    ensures c in LARGE <==> 'A' <= c <= 'Z'
  {
    if 'A' <= c <= 'Z' {
      assert LARGE[c as int - 'A' as int] == c;
    }
  }

  lemma Figures(c: char)
    ensures c in FIGURES <==> '0' <= c <= '9'
  {
    if '0' <= c <= '9' {
      assert FIGURES[c as int - '0' as int] == c;
    }
  }

  lemma SpacesAre(c: char)
    ensures IsSpace(c) <==> c in SPACES
  {
    var n := c as int;
    assert c == n as char;
  }
}
