/** The log filter of internal/cli/logs.go: whole lines that contain a text, from a stream that
    arrives in pieces. */
module Logs {
  import opened Text
  import opened Chunks

  /** bytes.Contains */
  function Contains(s: string, part: string): bool {
    part <= s || (s != "" && Contains(s[1..], part))
  }

  /** A text contains another exactly when it is that text with something around it. */
  lemma {:induction false} ContainsExactly(s: string, part: string)
    ensures Contains(s, part) <==> exists a, b :: a + part + b == s
  {
    if part <= s {
      assert "" + part + s[|part|..] == s;
    } else if s != "" {
      ContainsExactly(s[1..], part);
      if Contains(s[1..], part) {
        var a, b :| a + part + b == s[1..];
        assert [s[0]] + a + part + b == s;
      }
      if exists a, b :: a + part + b == s {
        var a, b :| a + part + b == s;
        assert a != "" by {
          assert "" + part + b == part + b;
        }
        assert (a + part + b)[1..] == a[1..] + part + b;
      }
    } else {
      assert forall a: string, b: string :: |a + part + b| >= |part|;
    }
  }

  /** The lines that contain `match`, newline and all. */
  function Kept(lines: seq<string>, part: string): string {
    if lines == [] then ""
    else
      var line := lines[|lines| - 1] + "\n";
      Kept(lines[..|lines| - 1], part) + if Contains(line, part) then line else ""
  }

  /** What a whole text comes to: its matching lines, a final unterminated one included. */
  function Filtered(s: string, part: string): string {
    Kept(Terminated(s), part) + if Contains(Rest(s), part) then Rest(s) else ""
  }

  lemma {:induction false} KeptAppend(a: seq<string>, b: seq<string>, part: string)
    ensures Kept(a + b, part) == Kept(a, part) + Kept(b, part)
  {
    if b == [] {
      assert a + b == a && Kept(a, part) + "" == Kept(a, part);
    } else {
      var n := |b| - 1;
      assert (a + b)[..|a + b| - 1] == a + b[..n];
      KeptAppend(a, b[..n], part);
      var last := if Contains(b[n] + "\n", part) then b[n] + "\n" else "";
      assert Kept(a, part) + (Kept(b[..n], part) + last) == (Kept(a, part) + Kept(b[..n], part)) + last;
    }
  }

  class LineFilter {
    const part: string
    /** The writer behind the filter never fails. */
    const sure: bool
    /** What reached the writer behind the filter. */
    var written: string
    var pending: string

    constructor (part: string, sure: bool)
      ensures this.part == part && this.sure == sure && written == "" && pending == ""
    {
      this.part, this.sure, written, pending := part, sure, "", "";
    }

    /** The writer behind the filter: all of it, or an error and any prefix of it. */
    method Pass(text: string) returns (ok: bool)
      modifies this`written
      ensures ok ==> written == old(written) + text
      ensures old(written) <= written <= old(written) + text
      ensures sure ==> ok
    {
      ok := *;
      ok := ok || sure;
      var n: int := *;
      if ok {
        written := written + text;
      } else if 0 <= n <= |text| {
        written := written + text[..n];
      }
    }

    /** All of `p` is taken, even by a write that then fails. */
    method Write(p: string) returns (n: nat, ok: bool)
      modifies this
      ensures n == |p|
      ensures sure ==> ok
      ensures ok ==> written == old(written) + Kept(Terminated(old(pending) + p), part)
      ensures ok ==> pending == Rest(old(pending) + p)
      // A failing writer still only ever got what was due, in order.
      ensures old(written) <= written <= old(written) + Kept(Terminated(old(pending) + p), part)
    {
      hide Terminated, Rest, Contains, Kept, IndexOf;
      var all := pending + p;
      pending := all;
      ghost var done: seq<string> := [];
      NothingKept(old(written), part);
      while true
        invariant Terminated(all) == done + Terminated(pending) && Rest(all) == Rest(pending)
        invariant written == old(written) + Kept(done, part)
        decreases |pending|
      {
        var i := IndexOf(pending, '\n');
        if i == |pending| {
          NoNewline(pending);
          assert done + [] == done;
          return |p|, true;
        }
        var line := pending[..i + 1];
        NextLine(done, pending, i, part);
        pending := pending[i + 1..];
        if Contains(line, part) {
          ok := Pass(line);
          if !ok {
            Prefixes(old(written), Kept(done, part), line, Kept(Terminated(pending), part), written);
            return |p|, false;
          }
        }
        done := done + [line[..i]];
      }
    }

    /** Flush: the unfinished line, if it matches. An error of the writer is not reported. */
    method Flush() returns (ghost ok: bool)
      modifies this
      ensures pending == ""
      ensures sure ==> ok
      ensures ok ==> written == old(written) + if Contains(old(pending), part) then old(pending) else ""
      ensures old(written) <= written <= old(written) + if Contains(old(pending), part) then old(pending) else ""
    {
      ok := true;
      if |pending| > 0 && Contains(pending, part) {
        var passed := Pass(pending);
        ok := passed;
      }
      pending := "";
    }
  }

  /** One turn: the first line of what is pending, and what it adds. */
  lemma NextLine(done: seq<string>, pending: string, i: nat, part: string)
    requires i < |pending| && i == IndexOf(pending, '\n')
    ensures var line, tail := pending[..i + 1], pending[i + 1..];
            var added := if Contains(line, part) then line else "";
            && line[..i] == pending[..i] && Rest(pending) == Rest(tail)
            && done + Terminated(pending) == (done + [line[..i]]) + Terminated(tail)
            && Kept(done + [line[..i]], part) == Kept(done, part) + added
            && Kept(done + Terminated(pending), part) == Kept(done, part) + added + Kept(Terminated(tail), part)
  {
    hide Terminated, Rest, Contains, Kept;
    var line, body, tail := pending[..i + 1], pending[..i], pending[i + 1..];
    assert pending == body + "\n" + tail && line == body + "\n" && line[..i] == body;
    LineThen(body, tail);
    KeptOne(body, part);
    KeptAppend(done, [body], part);
    KeptAppend(done + [body], Terminated(tail), part);
    assert done + ([body] + Terminated(tail)) == (done + [body]) + Terminated(tail);
  }

  lemma KeptOne(line: string, part: string)
    ensures Kept([line], part) == if Contains(line + "\n", part) then line + "\n" else ""
  {
    assert [line][..0] == [];
    assert "" + (line + "\n") == line + "\n";
  }

  lemma NothingKept(was: string, part: string)
    ensures was + Kept([], part) == was
  {
  }

  lemma Prefixes(was: string, done: string, line: string, later: string, now: string)
    requires was + done <= now <= was + done + line
    ensures was <= now <= was + (done + line + later)
  {
    assert was + (done + line + later) == (was + done + line) + later;
  }

  /** However the stream is cut up, what comes out is the matching lines of the whole. */
  method Run(filter: LineFilter, chunks: seq<string>) returns (ok: bool, ghost flushed: bool)
    requires filter.pending == ""
    modifies filter
    ensures ok && flushed ==> filter.written == old(filter.written) + Filtered(Flatten(chunks), filter.part)
    ensures filter.pending == ""
  {
    hide Terminated, Rest, Contains, Filtered;
    ok := true;
    NoNewline("");
    for i := 0 to |chunks|
      invariant ok ==> filter.written == old(filter.written) + Kept(Terminated(Flatten(chunks[..i])), filter.part)
      invariant ok ==> filter.pending == Rest(Flatten(chunks[..i]))
    {
      if ok {
        ghost var before := Flatten(chunks[..i]);
        assert chunks[..i + 1][..i] == chunks[..i];
        Cut(before, chunks[i]);
        KeptAppend(Terminated(before), Terminated(Rest(before) + chunks[i]), filter.part);
        var n;
        n, ok := filter.Write(chunks[i]);
      }
    }
    assert chunks[..|chunks|] == chunks;
    flushed := filter.Flush();
    AllFiltered(old(filter.written), Flatten(chunks), filter.part);
  }

  lemma AllFiltered(was: string, s: string, part: string)
    ensures was + Filtered(s, part) == (was + Kept(Terminated(s), part)) + if Contains(Rest(s), part) then Rest(s) else ""
  {
    hide Kept, Terminated, Rest, Contains;
  }
}
