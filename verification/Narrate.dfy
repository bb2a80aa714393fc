/** The consumer of the backend's log, internal/narrate/narrate.go: lines out of a byte stream,
    and the last of them kept for a failure. */
module Narrate {
  import opened Text
  import opened Chunks

  const RAW_LIMIT: int := 200

  /** strings.TrimSuffix(line, "\r") */
  function DropCR(line: string): string {
    if line != "" && line[|line| - 1] == '\r' then line[..|line| - 1] else line
  }

  function DropCRs(lines: seq<string>): seq<string> {
    if lines == [] then [] else DropCRs(lines[..|lines| - 1]) + [DropCR(lines[|lines| - 1])]
  }

  /** The last `n` of some lines. */
  function Last(lines: seq<string>, n: nat): seq<string> {
    if |lines| <= n then lines else lines[|lines| - n..]
  }

  /** The lines one invocation prints: those with a newline, a carriage return before it
      dropped, then a final one without, as it is. */
  function Lines(s: string): seq<string> {
    DropCRs(Terminated(s)) + if Rest(s) == "" then [] else [Rest(s)]
  }

  class Stream {
    var partial: string
    var raw: seq<string>
    var overflow: bool
    var failed: bool
    /** Every line handed on to be shown, in order. */
    var shown: seq<string>
    /** How much of `shown` came before this invocation. */
    ghost var from: nat

    /** The replay buffer is the last two hundred lines of this invocation, and the flag says
        whether there were more. */
    ghost predicate Valid()
      reads this`from, this`shown, this`raw, this`overflow
    {
      && from <= |shown|
      && raw == Last(shown[from..], RAW_LIMIT)
      && (overflow <==> |shown| - from > RAW_LIMIT)
    }

    constructor ()
      ensures Valid() && partial == "" && shown == [] && !failed
    {
      partial, raw, overflow, failed, shown, from := "", [], false, false, [], 0;
    }

    /** Begin: what came before stops mattering. An unfinished line is not thrown away. */
    method Begin()
      modifies this
      ensures Valid() && from == |shown| && shown == old(shown) && partial == old(partial) && !failed
    {
      raw, overflow, failed, from := [], false, false, |shown|;
    }

    method Keep(line: string)
      requires Valid()
      modifies this`raw, this`overflow, this`shown
      ensures Valid() && shown == old(shown) + [line]
    {
      if |raw| >= RAW_LIMIT {
        raw := raw[1..];
        overflow := true;
      }
      raw := raw + [line];
      assert (shown + [line])[from..] == shown[from..] + [line];
      shown := shown + [line];
    }

    /** Write, byte by byte. All of it is taken. */
    method Write(p: string) returns (n: nat)
      requires Valid() && OneLine(partial)
      modifies this`partial, this`raw, this`overflow, this`shown
      ensures Valid() && OneLine(partial) && n == |p|
      ensures shown == old(shown) + DropCRs(Terminated(old(partial) + p))
      ensures partial == Rest(old(partial) + p)
    {
      hide Terminated, Rest, DropCR, DropCRs, Stream.Valid;
      NoLines();
      var i := 0;
      assert partial + p[..0] == partial;
      NoNewline(partial);
      while i < |p|
        invariant 0 <= i <= |p| && Valid()
        invariant shown == old(shown) + DropCRs(Terminated(old(partial) + p[..i]))
        invariant partial == Rest(old(partial) + p[..i])
      {
        ghost var before := old(partial) + p[..i];
        assert old(partial) + p[..i + 1] == before + [p[i]];
        OneMoreByte(before, p[i]);
        if p[i] != '\n' {
          assert Terminated(before) + [] == Terminated(before);
          partial := partial + [p[i]];
        } else {
          var line := partial;
          partial := "";
          OneMoreLine(Terminated(before), Rest(before));
          Keep(DropCR(line));
          assert old(shown) + (DropCRs(Terminated(before)) + [DropCR(line)])
              == old(shown) + DropCRs(Terminated(before)) + [DropCR(line)];
        }
        i := i + 1;
      }
      assert p[..|p|] == p;
      RestIsOneLine(old(partial) + p);
      return |p|;
    }

    method End(err: bool)
      requires Valid()
      modifies this`partial, this`raw, this`overflow, this`shown, this`failed
      ensures Valid() && partial == "" && failed == err
      ensures shown == old(shown) + if old(partial) == "" then [] else [old(partial)]
    {
      if partial != "" {
        var rest := partial;
        partial := "";
        Keep(rest);
      }
      failed := err;
    }

    /** Replay: the last lines of the last invocation, if it failed, and whether earlier ones
        were dropped. */
    method Replay() returns (lines: seq<string>, dropped: bool)
      requires Valid()
      ensures lines == if failed then Last(shown[from..], RAW_LIMIT) else []
      ensures dropped <==> failed && |shown| - from > RAW_LIMIT
    {
      if !failed || |raw| == 0 {
        return [], false;
      }
      return raw, overflow;
    }
  }

  lemma OneMoreLine(lines: seq<string>, line: string)
    ensures DropCRs(lines + [line]) == DropCRs(lines) + [DropCR(line)]
  {
    assert (lines + [line])[..|lines|] == lines;
  }

  lemma {:induction false} DropCRsAppend(a: seq<string>, b: seq<string>)
    ensures DropCRs(a + b) == DropCRs(a) + DropCRs(b)
  {
    if b == [] {
      assert a + b == a;
    } else {
      assert (a + b)[..|a + b| - 1] == a + b[..|b| - 1];
      DropCRsAppend(a, b[..|b| - 1]);
    }
  }

  datatype Invocation = Invocation(chunks: seq<string>, err: bool)

  /** One invocation: however its output is cut up, the lines shown are the lines of the whole,
      and the replay is their last two hundred. */
  method Invoke(s: Stream, run: Invocation)
    requires s.Valid() && s.partial == ""
    modifies s
    ensures s.Valid() && s.partial == "" && s.failed == run.err
    ensures s.from == |old(s.shown)| && s.shown == old(s.shown) + Lines(Flatten(run.chunks))
  {
    hide Terminated, Rest, DropCRs, Stream.Valid;
    s.Begin();
    NoNewline("");
    NoLines();
    for i := 0 to |run.chunks|
      invariant s.Valid() && s.from == |old(s.shown)|
      invariant s.shown == old(s.shown) + DropCRs(Terminated(Flatten(run.chunks[..i])))
      invariant s.partial == Rest(Flatten(run.chunks[..i]))
    {
      ghost var before := Flatten(run.chunks[..i]);
      assert run.chunks[..i + 1][..i] == run.chunks[..i];
      Cut(before, run.chunks[i]);
      RestIsOneLine(before);
      DropCRsAppend(Terminated(before), Terminated(Rest(before) + run.chunks[i]));
      var n := s.Write(run.chunks[i]);
    }
    assert run.chunks[..|run.chunks|] == run.chunks;
    s.End(run.err);
  }

  lemma NoLines()
    ensures DropCRs([]) == []
  {
  }

  /** What every line of a run of invocations comes to. */
  function AllLines(runs: seq<Invocation>): seq<string> {
    if runs == [] then []
    else AllLines(runs[..|runs| - 1]) + Lines(Flatten(runs[|runs| - 1].chunks))
  }

  /** Invocation after invocation: nothing of one leaks into the next, and the replay is the
      last one's. */
  method InvokeAll(s: Stream, runs: seq<Invocation>)
    requires s.Valid() && s.partial == ""
    modifies s
    ensures s.Valid() && s.partial == ""
    ensures s.shown == old(s.shown) + AllLines(runs)
    ensures runs != [] ==> s.shown[s.from..] == Lines(Flatten(runs[|runs| - 1].chunks)) && s.failed == runs[|runs| - 1].err
  {
    hide Lines, Last;
    for i := 0 to |runs|
      invariant s.Valid() && s.partial == "" && s.from <= |s.shown|
      invariant s.shown == old(s.shown) + AllLines(runs[..i])
      invariant i > 0 ==> s.shown[s.from..] == Lines(Flatten(runs[i - 1].chunks)) && s.failed == runs[i - 1].err
    {
      assert runs[..i + 1][..i] == runs[..i];
      Invoke(s, runs[i]);
    }
    assert runs[..|runs|] == runs;
  }

  /** A final newline changes nothing exactly when the text does not already end a line and its
      unfinished line ends in no carriage return: only a terminated line loses it. */
  lemma FinalNewlineExactly(s: string)
    ensures Lines(s + "\n") == Lines(s) <==> Rest(s) != "" && s[|s| - 1] != '\r'
  {
    hide Terminated, Rest;
    OneMoreByte(s, '\n');
    OneMoreLine(Terminated(s), Rest(s));
    RestIsTail(s);
    if Rest(s) == "" {
      assert |Lines(s + "\n")| == |Lines(s)| + 1;
    } else {
      assert Lines(s)[|Lines(s)| - 1] == Rest(s);
      assert Lines(s + "\n")[|Lines(s + "\n")| - 1] == DropCR(Rest(s));
    }
  }

  lemma {:induction false} RestIsTail(s: string)
    ensures Rest(s) != "" ==> s != "" && Rest(s)[|Rest(s)| - 1] == s[|s| - 1]
    decreases |s|
  {
    hide Rest;
    var k := IndexOf(s, '\n');
    if k < |s| {
      var line, more := s[..k], s[k + 1..];
      LineThen(line, more);
      assert s == line + "\n" + more;
      RestIsTail(more);
    } else {
      NoNewline(s);
    }
  }
}
