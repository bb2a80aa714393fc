/** The key=value lines of the backend's log: parseFields and parseValue of
    internal/narrate/narrate.go, with strconv.Unquote on double-quoted literals. */
module LogFields {
  import opened Text

  /** What a value is made of: a character, or a single byte from 0x80 on that an escape
      spells. */
  datatype Unit = Rune(c: char) | Byte(b: nat)

  function Runes(s: string): seq<Unit> {
    seq(|s|, i requires 0 <= i < |s| => Rune(s[i]))
  }

  /** What \x and octal escapes stand for. */
  function ByteOf(v: nat): (u: Unit)
    requires v <= 0xFF
  {
    if v < 0x80 then Rune(v as char) else Byte(v)
  }

  // --- string literals ------------------------------------------------------------------------

  function HexDigit(c: char): Option<nat> {
    if '0' <= c <= '9' then Some(c as nat - '0' as nat)
    else if 'a' <= c <= 'f' then Some(c as nat - 'a' as nat + 10)
    else if 'A' <= c <= 'F' then Some(c as nat - 'A' as nat + 10)
    else None
  }

  function OctalDigit(c: char): Option<nat> {
    if '0' <= c <= '7' then Some(c as nat - '0' as nat) else None
  }

  /** The number some digits spell, in base 16 or base 8. */
  function Number(digits: string, hex: bool): Option<nat> {
    if digits == "" then Some(0)
    else
      var n := |digits| - 1;
      match Number(digits[..n], hex)
      case None => None
      case Some(v) =>
        match if hex then HexDigit(digits[n]) else OctalDigit(digits[n])
        case None => None
        case Some(d) => Some(v * (if hex then 16 else 8) + d)
  }

  /** utf8.ValidRune */
  predicate ValidRune(v: nat) {
    v < 0xD800 || 0xE000 <= v < 0x11_0000
  }

  /** What a one-letter escape stands for. */
  function Letter(c: char): Option<char> {
    match c
    case 'a' => Some('\U{7}')
    case 'b' => Some('\U{8}')
    case 'f' => Some('\U{C}')
    case 'n' => Some('\n')
    case 'r' => Some('\r')
    case 't' => Some('\t')
    case 'v' => Some('\U{B}')
    case '\\' => Some('\\')
    case '"' => Some('"')
    case _ => None
  }

  /** How many digits follow \x, \u and \U. */
  function CodeLength(c: char): Option<nat> {
    match c
    case 'x' => Some(2)
    case 'u' => Some(4)
    case 'U' => Some(8)
    case _ => None
  }

  /** What an escape says after its backslash, and how much of `s` it takes. */
  function Escape(s: string): (e: Option<(Unit, nat)>)
    ensures e.Some? ==> 1 <= e.value.1 <= |s|
  {
    if s == "" then None
    else if CodeLength(s[0]).Some? then
      var n := CodeLength(s[0]).value;
      if |s| < n + 1 then None
      else
        match Number(s[1..n + 1], true)
        case None => None
        case Some(v) =>
          if s[0] == 'x' then (if v <= 0xFF then Some((ByteOf(v), n + 1)) else None)
          else if ValidRune(v) then Some((Rune(v as char), n + 1)) else None
    else if OctalDigit(s[0]).Some? then
      if |s| < 3 then None
      else
        match Number(s[..3], false)
        case None => None
        case Some(v) => if v <= 0xFF then Some((ByteOf(v), 3)) else None
    else
      match Letter(s[0])
      case None => None
      case Some(c) => Some((Rune(c), 1))
  }

  /** strconv.Unquote, from after the opening quote: the text must end with the closing one. */
  function Unquote(s: string): Option<seq<Unit>>
    decreases |s|
  {
    if s == "" || s[0] == '\n' then None
    else if s[0] == '"' then (if |s| == 1 then Some([]) else None)
    else if s[0] != '\\' then Prepend(Rune(s[0]), Unquote(s[1..]))
    else
      match Escape(s[1..])
      case None => None
      case Some((u, n)) => Prepend(u, Unquote(s[1 + n..]))
  }

  function Prepend(u: Unit, rest: Option<seq<Unit>>): Option<seq<Unit>> {
    if rest.Some? then Some([u] + rest.value) else None
  }

  // --- values and fields -------------------------------------------------------------------------

  /** The index of the quote that closes a literal, skipping what a backslash precedes; at
      least the length when there is none. */
  function Closing(s: string, from: nat): (end: nat)
    ensures end >= from
    ensures end < |s| ==> s[end] == '"'
    decreases |s| - from
  {
    if from >= |s| || s[from] == '"' then from
    else Closing(s, if s[from] == '\\' then from + 2 else from + 1)
  }

  function BareEnd(s: string, from: nat): (end: nat)
    requires from <= |s|
    ensures from <= end <= |s|
    decreases |s| - from
  {
    if from < |s| && s[from] != ' ' then BareEnd(s, from + 1) else from
  }

  /** The value at the start of `s`, and its length there. */
  function ValueAt(s: string): (v: Option<(seq<Unit>, nat)>)
    ensures v.Some? ==> v.value.1 <= |s|
  {
    if s != "" && s[0] == '"' then
      var end := Closing(s, 1);
      if end >= |s| then None
      else
        match Unquote(s[1..end + 1])
        case None => None
        case Some(value) => Some((value, end + 1))
    else
      Some((Runes(s[..BareEnd(s, 0)]), BareEnd(s, 0)))
  }

  function Spaces(s: string): (n: nat)
    ensures n <= |s|
    ensures n < |s| ==> s[n] != ' '
  {
    if s != "" && s[0] == ' ' then 1 + Spaces(s[1..]) else 0
  }

  function KeyEnd(s: string): (n: nat)
    ensures n <= |s|
    ensures n < |s| ==> s[n] == '=' || s[n] == ' '
  {
    if s == "" || s[0] == '=' || s[0] == ' ' then 0 else 1 + KeyEnd(s[1..])
  }

  datatype Field = Field(key: string, value: seq<Unit>)

  datatype Turn = Bad | Done | One(field: Field, length: nat)

  /** The field at the start of `s`, past any spaces. */
  function FirstField(s: string): (turn: Turn)
    ensures turn.One? ==> 1 <= turn.length <= |s|
    ensures s == "" ==> turn == Done
  {
    var start := Spaces(s);
    if start == |s| then Done
    else
      var k := KeyEnd(s[start..]);
      if start + k == |s| || s[start + k] != '=' || k == 0 then Bad
      else
        match ValueAt(s[start + k + 1..])
        case None => Bad
        case Some((value, n)) => One(Field(s[start..start + k], value), start + k + 1 + n)
  }

  /** The fields of a line, or None when any part of it is not one. */
  function FieldsOf(s: string): Option<seq<Field>>
    decreases |s|
  {
    match FirstField(s)
    case Bad => None
    case Done => Some([])
    case One(field, n) => After([field], FieldsOf(s[n..]))
  }

  function After(first: seq<Field>, rest: Option<seq<Field>>): Option<seq<Field>> {
    if rest.Some? then Some(first + rest.value) else None
  }

  /** The last value of each key. */
  function LastWins(fields: seq<Field>): map<string, seq<Unit>> {
    if fields == [] then map[]
    else LastWins(fields[..|fields| - 1])[fields[|fields| - 1].key := fields[|fields| - 1].value]
  }

  method ReadValue(line: string, i: nat) returns (value: seq<Unit>, next: nat, ok: bool)
    requires i <= |line|
    ensures match ValueAt(line[i..])
            case None => !ok
            case Some((v, n)) => ok && value == v && next == i + n
  {
    ghost var s := line[i..];
    if i < |line| && line[i] == '"' {
      var end := i + 1;
      while end < |line| && line[end] != '"'
        invariant i + 1 <= end && Closing(s, 1) == Closing(s, end - i)
      {
        if line[end] == '\\' {
          end := end + 1;
        }
        end := end + 1;
      }
      if end >= |line| {
        return [], 0, false;
      }
      assert s[1..end - i + 1] == line[i + 1..end + 1];
      var text := Unquote(line[i + 1..end + 1]);
      if text.None? {
        return [], 0, false;
      }
      return text.value, end + 1, true;
    }
    var end := i;
    while end < |line| && line[end] != ' '
      invariant i <= end <= |line| && BareEnd(s, 0) == BareEnd(s, end - i)
    {
      end := end + 1;
    }
    assert s[..end - i] == line[i..end];
    return Runes(line[i..end]), end, true;
  }

  method SkipSpaces(line: string, i: nat) returns (start: nat)
    requires i <= |line|
    ensures start == i + Spaces(line[i..])
  {
    start := i;
    while start < |line| && line[start] == ' '
      invariant i <= start <= |line| && i + Spaces(line[i..]) == start + Spaces(line[start..])
    {
      assert line[start..][1..] == line[start + 1..];
      start := start + 1;
    }
  }

  method SkipKey(line: string, start: nat) returns (end: nat)
    requires start <= |line|
    ensures end == start + KeyEnd(line[start..])
  {
    end := start;
    while end < |line| && line[end] != '=' && line[end] != ' '
      invariant start <= end <= |line| && start + KeyEnd(line[start..]) == end + KeyEnd(line[end..])
    {
      assert line[end..][1..] == line[end + 1..];
      end := end + 1;
    }
  }

  /** One turn of parseFields' loop. */
  method NextField(line: string, i: nat) returns (turn: Turn)
    requires i <= |line|
    ensures turn == FirstField(line[i..])
  {
    hide ValueAt, KeyEnd, Spaces;
    ghost var s := line[i..];
    var start := SkipSpaces(line, i);
    if start >= |line| {
      return Done;
    }
    assert s[start - i..] == line[start..];
    var end := SkipKey(line, start);
    if end >= |line| || line[end] != '=' || end == start {
      return Bad;
    }
    assert s[end - i + 1..] == line[end + 1..] && s[start - i..end - i] == line[start..end];
    var value, next, ok := ReadValue(line, end + 1);
    return if ok then One(Field(line[start..end], value), next - i) else Bad;
  }

  /** parseFields: nil is None; a line without fields is nil too. */
  method ReadFields(line: string) returns (fields: Option<map<string, seq<Unit>>>)
    ensures fields == if FieldsOf(line).Some? && FieldsOf(line).value != [] then Some(LastWins(FieldsOf(line).value)) else None
  {
    hide FirstField;
    var found: map<string, seq<Unit>> := map[];
    var i := 0;
    ghost var done: seq<Field> := [];
    assert line[0..] == line;
    AfterNothing(FieldsOf(line));
    var more := true;
    while more && i < |line|
      invariant 0 <= i <= |line| && (more || FieldsOf(line[i..]) == Some([]))
      invariant FieldsOf(line) == After(done, FieldsOf(line[i..]))
      invariant found == LastWins(done)
      decreases |line| - i, more
    {
      var turn := NextField(line, i);
      match turn
      case Bad =>
        return None;
      case Done =>
        more := false;
      case One(field, n) =>
        assert line[i..][n..] == line[i + n..];
        AfterTwice(done, [field], FieldsOf(line[i + n..]));
        assert (done + [field])[..|done|] == done;
        found := found[field.key := field.value];
        done := done + [field];
        i := i + n;
    }
    AfterAll(done);
    assert i == |line| ==> line[i..] == "";
    LastWinsKeys(done);
    return if found == map[] then None else Some(found);
  }

  lemma AfterNothing(rest: Option<seq<Field>>)
    ensures After([], rest) == rest
  {
    if rest.Some? {
      assert [] + rest.value == rest.value;
    }
  }

  lemma AfterAll(done: seq<Field>)
    ensures After(done, Some([])) == Some(done)
  {
    assert done + [] == done;
  }

  lemma AfterTwice(a: seq<Field>, b: seq<Field>, rest: Option<seq<Field>>)
    ensures After(a, After(b, rest)) == After(a + b, rest)
  {
    if rest.Some? {
      assert a + (b + rest.value) == (a + b) + rest.value;
    }
  }

  /** The value of a key is the one of its last field. */
  lemma {:induction false} LastWinsValue(fields: seq<Field>, i: nat)
    requires i < |fields| && forall j :: i < j < |fields| ==> fields[j].key != fields[i].key
    ensures fields[i].key in LastWins(fields) && LastWins(fields)[fields[i].key] == fields[i].value
  {
    var n := |fields| - 1;
    if i < n {
      LastWinsValue(fields[..n], i);
    }
  }

  lemma {:induction false} LastWinsKeys(fields: seq<Field>)
    ensures LastWins(fields) == map[] <==> fields == []
    ensures forall k :: k in LastWins(fields) <==> exists i :: 0 <= i < |fields| && fields[i].key == k
  {
    if fields != [] {
      var n := |fields| - 1;
      LastWinsKeys(fields[..n]);
      assert fields[n].key in LastWins(fields);
      forall k ensures k in LastWins(fields) <==> exists i :: 0 <= i < |fields| && fields[i].key == k {
        if i :| 0 <= i < |fields| && fields[i].key == k {
          assert i < n ==> fields[..n][i].key == k;
        }
      }
    }
  }
}
