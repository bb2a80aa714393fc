/** Lines out of a text that arrives in pieces. */
module Chunks {
  import opened Text

  /** The lines of a text that have their newline. */
  function Terminated(s: string): seq<string> {
    var parts := Split(s, '\n');
    parts[..|parts| - 1]
  }

  /** What follows the last newline. */
  function Rest(s: string): string {
    var parts := Split(s, '\n');
    parts[|parts| - 1]
  }

  function Flatten(chunks: seq<string>): string {
    if chunks == [] then "" else Flatten(chunks[..|chunks| - 1]) + chunks[|chunks| - 1]
  }

  lemma NoNewline(s: string)
    requires '\n' !in s
    ensures Terminated(s) == [] && Rest(s) == s
  {
    SplitNone(s, '\n');
  }

  lemma LineThen(line: string, s: string)
    requires '\n' !in line
    ensures Terminated(line + "\n" + s) == [line] + Terminated(s) && Rest(line + "\n" + s) == Rest(s)
  {
    SplitAt(line, '\n', s);
  }

  lemma RestIsOneLine(s: string)
    ensures '\n' !in Rest(s)
  {
    JoinOfSplit(s, '\n');
  }

  /** A text cut in two has the lines of the first part, then those of the second with the
      first part's unfinished line in front. */
  lemma {:induction false} Cut(a: string, b: string)
    ensures Terminated(a + b) == Terminated(a) + Terminated(Rest(a) + b)
    ensures Rest(a + b) == Rest(Rest(a) + b)
    decreases |a|
  {
    hide Terminated, Rest;
    var k := IndexOf(a, '\n');
    if k == |a| {
      NoNewline(a);
    } else {
      var line, tail := a[..k], a[k + 1..];
      Cut(tail, b);
      LineThen(line, tail);
      LineThen(line, tail + b);
      assert a == line + "\n" + tail && a + b == line + "\n" + (tail + b);
    }
  }

  lemma OneMoreByte(s: string, c: char)
    ensures Terminated(s + [c]) == Terminated(s) + if c == '\n' then [Rest(s)] else []
    ensures Rest(s + [c]) == if c == '\n' then "" else Rest(s) + [c]
  {
    hide Terminated, Rest;
    Cut(s, [c]);
    RestIsOneLine(s);
    if c == '\n' {
      LineThen(Rest(s), "");
      NoNewline("");
      assert Rest(s) + "\n" + "" == Rest(s) + [c];
    } else {
      NoNewline(Rest(s) + [c]);
    }
  }
}
