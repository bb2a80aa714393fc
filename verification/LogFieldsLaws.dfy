/** Which lines parseFields accepts, and what it reads in them: exactly the key=value pairs
    somebody may have printed, each value bare or quoted with any escapes. */
module LogFieldsLaws {
  import opened Text
  import opened LogFields

  /** One character or byte of a string literal, as it may be written. */
  datatype Item =
    | Plain(c: char)
    | Short(letter: char)
    | Code(kind: char, digits: string)
    | Octal(digits: string)

  predicate LegalItem(item: Item) {
    match item
    case Plain(c) => c != '"' && c != '\\' && c != '\n'
    case Short(letter) => Letter(letter).Some?
    case Code(kind, digits) =>
      && CodeLength(kind).Some? && |digits| == CodeLength(kind).value && Number(digits, true).Some?
      && if kind == 'x' then Number(digits, true).value <= 0xFF else ValidRune(Number(digits, true).value)
    case Octal(digits) => |digits| == 3 && Number(digits, false).Some? && Number(digits, false).value <= 0xFF
  }

  function ItemText(item: Item): string {
    match item
    case Plain(c) => [c]
    case Short(letter) => ['\\', letter]
    case Code(kind, digits) => ['\\', kind] + digits
    case Octal(digits) => ['\\'] + digits
  }

  function ItemUnit(item: Item): Unit
    requires LegalItem(item)
  {
    match item
    case Plain(c) => Rune(c)
    case Short(letter) => Rune(Letter(letter).value)
    case Code(kind, digits) =>
      var v := Number(digits, true).value;
      if kind == 'x' then ByteOf(v) else Rune(v as char)
    case Octal(digits) => ByteOf(Number(digits, false).value)
  }

  predicate LegalItems(items: seq<Item>) {
    forall item <- items :: LegalItem(item)
  }

  function Literal(items: seq<Item>): string {
    if items == [] then "" else ItemText(items[0]) + Literal(items[1..])
  }

  function Units(items: seq<Item>): seq<Unit>
    requires LegalItems(items)
  {
    if items == [] then [] else [ItemUnit(items[0])] + Units(items[1..])
  }

  // --- one item -----------------------------------------------------------------------------------

  lemma {:induction false} DigitsAreDigits(digits: string, hex: bool)
    requires Number(digits, hex).Some?
    ensures forall c <- digits :: if hex then HexDigit(c).Some? else OctalDigit(c).Some?
  {
    if digits != "" {
      var n := |digits| - 1;
      DigitsAreDigits(digits[..n], hex);
      assert digits == digits[..n] + [digits[n]];
    }
  }

  lemma CodeReads(kind: char, digits: string, rest: string)
    requires LegalItem(Code(kind, digits))
    ensures Unquote(['\\', kind] + digits + rest) == Prepend(ItemUnit(Code(kind, digits)), Unquote(rest))
  {
    hide Number;
    var s, e := ['\\', kind] + digits + rest, [kind] + digits + rest;
    var n := |digits|;
    assert s[1..] == e && e[0] == kind && e[1..n + 1] == digits && s[1 + (n + 1)..] == rest;
  }

  lemma OctalReads(digits: string, rest: string)
    requires LegalItem(Octal(digits))
    ensures Unquote(['\\'] + digits + rest) == Prepend(ItemUnit(Octal(digits)), Unquote(rest))
  {
    hide Number;
    DigitsAreDigits(digits, false);
    assert digits[0] in digits;
    var s, e := ['\\'] + digits + rest, digits + rest;
    assert s[1..] == e && e[..3] == digits && s[1 + 3..] == rest;
  }

  /** An item read back from the front of a literal. */
  lemma ItemReads(item: Item, rest: string)
    requires LegalItem(item)
    ensures Unquote(ItemText(item) + rest) == Prepend(ItemUnit(item), Unquote(rest))
  {
    hide Number;
    match item
    case Plain(c) =>
      assert ([c] + rest)[1..] == rest;
    case Short(letter) =>
      var s := ['\\', letter] + rest;
      assert s[1..] == [letter] + rest && s[1 + 1..] == rest;
    case Code(kind, digits) =>
      CodeReads(kind, digits, rest);
    case Octal(digits) =>
      OctalReads(digits, rest);
  }

  lemma {:induction false} LiteralReads(items: seq<Item>)
    requires LegalItems(items)
    ensures Unquote(Literal(items) + "\"") == Some(Units(items))
  {
    hide ItemText, ItemUnit, LegalItem;
    if items == [] {
      assert "" + "\"" == "\"";
    } else {
      assert items[0] in items && forall i <- items[1..] :: i in items;
      LiteralReads(items[1..]);
      ItemReads(items[0], Literal(items[1..]) + "\"");
      assert Literal(items) + "\"" == ItemText(items[0]) + (Literal(items[1..]) + "\"");
    }
  }

  ghost predicate At(s: string, k: nat, text: string) {
    k + |text| <= |s| && forall i :: 0 <= i < |text| ==> s[k + i] == text[i]
  }

  /** Text without quotes and backslashes is scanned past. */
  lemma {:induction false} ScanPast(s: string, k: nat, end: nat)
    requires k <= end <= |s| && forall i :: k <= i < end ==> s[i] != '"' && s[i] != '\\'
    ensures Closing(s, k) == Closing(s, end)
    decreases end - k
  {
    if k < end {
      ScanPast(s, k + 1, end);
    }
  }

  lemma ScanItem(s: string, k: nat, item: Item)
    requires LegalItem(item) && At(s, k, ItemText(item))
    ensures Closing(s, k) == Closing(s, k + |ItemText(item)|)
  {
    hide Number, Letter, CodeLength;
    var text := ItemText(item);
    assert s[k] == text[0];
    match item
    case Plain(c) =>
    case Short(letter) =>
    case Code(kind, digits) =>
      DigitsAreDigits(digits, true);
      forall i | k + 2 <= i < k + |text| ensures s[i] != '"' && s[i] != '\\' {
        assert s[k + (i - k)] == text[i - k] == digits[i - k - 2];
        assert digits[i - k - 2] in digits;
      }
      ScanPast(s, k + 2, k + |text|);
    case Octal(digits) =>
      DigitsAreDigits(digits, false);
      forall i | k + 2 <= i < k + |text| ensures s[i] != '"' && s[i] != '\\' {
        assert s[k + (i - k)] == text[i - k] == digits[i - k - 1];
        assert digits[i - k - 1] in digits;
      }
      ScanPast(s, k + 2, k + |text|);
  }

  /** The scan for the closing quote stops at it, whatever is escaped before and whatever
      follows. */
  lemma {:induction false} LiteralCloses(s: string, k: nat, items: seq<Item>)
    requires LegalItems(items) && At(s, k, Literal(items) + "\"")
    ensures Closing(s, k) == k + |Literal(items)|
    decreases |items|
  {
    hide ItemText, LegalItem, Closing;
    var all := Literal(items) + "\"";
    if items == [] {
      assert s[k + 0] == all[0] == '"';
      StopsAtQuote(s, k);
    } else {
      assert items[0] in items && forall i <- items[1..] :: i in items;
      var text, tail := ItemText(items[0]), Literal(items[1..]) + "\"";
      assert all == text + tail;
      AtParts(s, k, text, tail);
      ScanItem(s, k, items[0]);
      LiteralCloses(s, k + |text|, items[1..]);
    }
  }

  lemma StopsAtQuote(s: string, k: nat)
    requires k < |s| && s[k] == '"'
    ensures Closing(s, k) == k
  {
  }

  lemma AtParts(s: string, k: nat, a: string, b: string)
    requires At(s, k, a + b)
    ensures At(s, k, a) && At(s, k + |a|, b)
  {
    forall i | 0 <= i < |b| ensures s[k + |a| + i] == b[i] {
      assert s[k + (|a| + i)] == (a + b)[|a| + i];
    }
    forall i | 0 <= i < |a| ensures s[k + i] == a[i] {
      assert s[k + i] == (a + b)[i];
    }
  }

  // --- whole lines ----------------------------------------------------------------------------------

  datatype Value = Bare(text: string) | Quoted(items: seq<Item>)

  /** A pair as printed, after some spaces. */
  datatype Pair = Pair(spaces: nat, key: string, value: Value)

  function Blank(n: nat): string {
    if n == 0 then "" else " " + Blank(n - 1)
  }

  predicate LegalPair(p: Pair) {
    && p.key != "" && (forall c <- p.key :: c != '=' && c != ' ')
    && match p.value
       case Bare(text) => (forall c <- text :: c != ' ') && (text != "" ==> text[0] != '"')
       case Quoted(items) => LegalItems(items)
  }

  /** A bare value ends at a space; a quoted one at its quote, so the next pair may follow at
      once. */
  predicate LegalLine(pairs: seq<Pair>, spaced: bool) {
    pairs == []
    || (LegalPair(pairs[0]) && (spaced ==> pairs[0].spaces > 0) && LegalLine(pairs[1..], pairs[0].value.Bare?))
  }

  function ValueText(v: Value): string {
    match v
    case Bare(text) => text
    case Quoted(items) => "\"" + Literal(items) + "\""
  }

  function Line(pairs: seq<Pair>, trailing: nat): string {
    if pairs == [] then Blank(trailing)
    else Blank(pairs[0].spaces) + pairs[0].key + "=" + ValueText(pairs[0].value) + Line(pairs[1..], trailing)
  }

  function FieldOf(p: Pair): Field
    requires LegalPair(p)
  {
    Field(p.key, match p.value case Bare(text) => Runes(text) case Quoted(items) => Units(items))
  }

  function Fields(pairs: seq<Pair>, spaced: bool): seq<Field>
    requires LegalLine(pairs, spaced)
  {
    if pairs == [] then [] else [FieldOf(pairs[0])] + Fields(pairs[1..], pairs[0].value.Bare?)
  }

  lemma {:induction false} SpacesOf(n: nat, rest: string)
    requires rest == "" || rest[0] != ' '
    ensures Spaces(Blank(n) + rest) == n && |Blank(n)| == n
  {
    if n > 0 {
      SpacesOf(n - 1, rest);
      assert (Blank(n) + rest)[1..] == Blank(n - 1) + rest;
    } else {
      assert "" + rest == rest;
    }
  }

  lemma {:induction false} KeyStops(key: string, rest: string)
    requires forall c <- key :: c != '=' && c != ' '
    ensures KeyEnd(key + "=" + rest) == |key|
  {
    if key != "" {
      assert key[0] in key && forall c <- key[1..] :: c in key;
      KeyStops(key[1..], rest);
      assert (key + "=" + rest)[1..] == key[1..] + "=" + rest;
    }
  }

  lemma {:induction false} BareStops(before: string, text: string, rest: string)
    requires (forall c <- text :: c != ' ') && (rest == "" || rest[0] == ' ')
    ensures BareEnd(before + text + rest, |before|) == |before| + |text|
    decreases |text|
  {
    var s := before + text + rest;
    if text == "" {
      assert rest != "" ==> s[|before|] == ' ';
    } else {
      assert text[0] in text && forall c <- text[1..] :: c in text;
      BareStops(before + [text[0]], text[1..], rest);
      assert before + [text[0]] + text[1..] + rest == s && s[|before|] == text[0];
    }
  }

  /** A printed value read back, whatever may follow it. */
  lemma ValueReads(p: Pair, rest: string)
    requires LegalPair(p) && (p.value.Bare? ==> rest == "" || rest[0] == ' ')
    ensures ValueAt(ValueText(p.value) + rest) == Some((FieldOf(p).value, |ValueText(p.value)|))
  {
    hide Literal, Unquote, Units, LegalItems, Closing, BareEnd;
    var s := ValueText(p.value) + rest;
    match p.value
    case Bare(text) =>
      BareStops("", text, rest);
      assert "" + text + rest == s && s[..|text|] == text;
      assert text == "" && rest != "" ==> s[0] == ' ';
      assert text != "" ==> s[0] == text[0];
    case Quoted(items) =>
      var body := Literal(items);
      LiteralReads(items);
      assert s == "\"" + (body + "\"") + rest && s[0] == '"';
      LiteralCloses(s, 1, items);
      assert s[1..(1 + |body|) + 1] == body + "\"";
  }

  lemma LineStart(pairs: seq<Pair>, trailing: nat, spaced: bool)
    requires LegalLine(pairs, spaced)
    ensures spaced ==> Line(pairs, trailing) == "" || Line(pairs, trailing)[0] == ' '
  {
    if pairs != [] && spaced {
      assert Blank(pairs[0].spaces)[0] == ' ';
    }
  }

  lemma Slices(s: string, start: nat, key: string, v: string)
    requires start <= |s| && s[start..] == key + "=" + v
    ensures |s| == start + |key| + 1 + |v| && s[start + |key|] == '='
    ensures s[start..start + |key|] == key && s[start + |key| + 1..] == v
  {
    var tail := key + "=" + v;
    assert |tail| == |key| + 1 + |v|;
    assert forall i :: 0 <= i < |tail| ==> s[start + i] == tail[i];
    assert forall i :: 0 <= i < |v| ==> v[i] == tail[|key| + 1 + i] == s[start + (|key| + 1 + i)];
    assert forall i :: 0 <= i < |key| ==> key[i] == tail[i] == s[start + i];
    assert tail[|key|] == '=';
  }

  lemma FirstFieldIs(s: string, key: string, v: string, value: seq<Unit>, n: nat)
    requires key != "" && s[Spaces(s)..] == key + "=" + v && KeyEnd(s[Spaces(s)..]) == |key|
    requires ValueAt(v) == Some((value, n))
    ensures FirstField(s) == One(Field(key, value), Spaces(s) + |key| + 1 + n)
  {
    hide Spaces, KeyEnd, ValueAt;
    Slices(s, Spaces(s), key, v);
  }

  lemma PairReads(p: Pair, rest: string)
    requires LegalPair(p) && (p.value.Bare? ==> rest == "" || rest[0] == ' ')
    ensures var text := Blank(p.spaces) + p.key + "=" + ValueText(p.value);
            FirstField(text + rest) == One(FieldOf(p), |text|)
  {
    hide ValueAt, ValueText, Blank, Spaces, KeyEnd, FieldOf, FirstField, LegalItems;
    var v, n := ValueText(p.value) + rest, p.spaces;
    var keyed := p.key + "=" + v;
    assert keyed[0] == p.key[0] && p.key[0] in p.key;
    SpacesOf(n, keyed);
    KeyStops(p.key, v);
    ValueReads(p, rest);
    KeyOfField(p);
    Assemble(Blank(n), p.key, ValueText(p.value), rest);
    FirstFieldIs(Blank(n) + keyed, p.key, v, FieldOf(p).value, |ValueText(p.value)|);
  }

  lemma Assemble(blank: string, key: string, text: string, rest: string)
    ensures blank + key + "=" + text + rest == blank + (key + "=" + (text + rest))
    ensures (blank + (key + "=" + (text + rest)))[|blank|..] == key + "=" + (text + rest)
  {
  }

  lemma KeyOfField(p: Pair)
    requires LegalPair(p)
    ensures FieldOf(p).key == p.key
  {
  }

  /** Every line of printed pairs reads back as those pairs. */
  lemma {:induction false} LineReads(pairs: seq<Pair>, trailing: nat, spaced: bool)
    requires LegalLine(pairs, spaced)
    ensures FieldsOf(Line(pairs, trailing)) == Some(Fields(pairs, spaced))
    decreases |pairs|
  {
    hide FirstField, FieldOf, ValueText, LegalPair;
    if pairs == [] {
      BlankIsDone(trailing);
    } else {
      var p, rest := pairs[0], Line(pairs[1..], trailing);
      LineStart(pairs[1..], trailing, p.value.Bare?);
      PairReads(p, rest);
      LineReads(pairs[1..], trailing, p.value.Bare?);
      var text := Blank(p.spaces) + p.key + "=" + ValueText(p.value);
      assert Line(pairs, trailing) == text + rest && (text + rest)[|text|..] == rest;
    }
  }

  lemma BlankIsDone(n: nat)
    ensures FirstField(Blank(n)) == Done
  {
    SpacesOf(n, "");
    assert Blank(n) + "" == Blank(n);
  }

  // --- and nothing else is accepted -------------------------------------------------------------------

  lemma EscapedItem(e: string) returns (item: Item)
    requires Escape(e).Some?
    ensures LegalItem(item) && ItemText(item) == ['\\'] + e[..Escape(e).value.1] && ItemUnit(item) == Escape(e).value.0
  {
    hide Number;
    if CodeLength(e[0]).Some? {
      var n := CodeLength(e[0]).value;
      item := Code(e[0], e[1..n + 1]);
      assert e[..n + 1] == [e[0]] + e[1..n + 1];
    } else if OctalDigit(e[0]).Some? {
      item := Octal(e[..3]);
    } else {
      item := Short(e[0]);
      assert e[..1] == [e[0]];
    }
  }

  /** Every literal that unquotes is written in legal items. */
  lemma {:induction false} ItemsOf(s: string) returns (items: seq<Item>)
    requires Unquote(s).Some?
    ensures LegalItems(items) && s == Literal(items) + "\"" && Unquote(s).value == Units(items)
    decreases |s|
  {
    hide Escape, LegalItem, ItemText, ItemUnit, Number;
    if s[0] == '"' {
      items := [];
      assert s == "\"" && "" + "\"" == "\"";
    } else {
      var item: Item, n: nat;
      if s[0] != '\\' {
        item, n := Plain(s[0]), 1;
        PlainItem(s[0]);
        assert s[..1] == [s[0]];
      } else {
        item := EscapedItem(s[1..]);
        n := 1 + Escape(s[1..]).value.1;
        assert s[..n] == ['\\'] + s[1..][..n - 1];
      }
      var rest := ItemsOf(s[n..]);
      items := [item] + rest;
      assert items[1..] == rest && s == s[..n] + s[n..];
      assert ItemText(item) + (Literal(rest) + "\"") == ItemText(item) + Literal(rest) + "\"";
    }
  }

  lemma PlainItem(c: char)
    requires c != '"' && c != '\\' && c != '\n'
    ensures LegalItem(Plain(c)) && ItemText(Plain(c)) == [c] && ItemUnit(Plain(c)) == Rune(c)
  {
  }

  lemma {:induction false} KeyIsClean(s: string)
    ensures forall c <- s[..KeyEnd(s)] :: c != '=' && c != ' '
  {
    if s != "" && s[0] != '=' && s[0] != ' ' {
      KeyIsClean(s[1..]);
      assert s[..KeyEnd(s)] == [s[0]] + s[1..][..KeyEnd(s[1..])];
    }
  }

  lemma {:induction false} SpacesAreBlank(s: string)
    ensures s[..Spaces(s)] == Blank(Spaces(s))
    ensures s != "" && s[0] == ' ' ==> Spaces(s) > 0
  {
    if s != "" && s[0] == ' ' {
      SpacesAreBlank(s[1..]);
      assert s[..Spaces(s)] == " " + s[1..][..Spaces(s[1..])];
    }
  }

  lemma {:induction false} BareIsClean(s: string, from: nat)
    requires from <= |s|
    ensures forall i :: from <= i < BareEnd(s, from) ==> s[i] != ' '
    ensures BareEnd(s, from) < |s| ==> s[BareEnd(s, from)] == ' '
    decreases |s| - from
  {
    if from < |s| && s[from] != ' ' {
      BareIsClean(s, from + 1);
    }
  }

  /** A value that is read was printed. */
  lemma ValueOf(s: string) returns (v: Value)
    requires ValueAt(s).Some?
    ensures var n := ValueAt(s).value.1;
            && s[..n] == ValueText(v) && LegalPair(Pair(0, "k", v)) && FieldOf(Pair(0, "k", v)).value == ValueAt(s).value.0
            && (v.Bare? ==> n == |s| || s[n] == ' ')
  {
    hide Unquote, Literal, Units, LegalItems, Closing, BareEnd;
    if s != "" && s[0] == '"' {
      var end := Closing(s, 1);
      var items := ItemsOf(s[1..end + 1]);
      v := Quoted(items);
      assert s[..end + 1] == "\"" + s[1..end + 1];
      assert "\"" + (Literal(items) + "\"") == "\"" + Literal(items) + "\"";
    } else {
      BareIsClean(s, 0);
      v := Bare(s[..BareEnd(s, 0)]);
    }
  }

  function PairText(p: Pair): string {
    Blank(p.spaces) + p.key + "=" + ValueText(p.value)
  }

  lemma PairOf(s: string) returns (p: Pair)
    requires FirstField(s).One?
    ensures var n := FirstField(s).length;
            && LegalPair(p) && s[..n] == PairText(p) && FieldOf(p) == FirstField(s).field
            && (p.value.Bare? ==> n == |s| || s[n] == ' ')
            && (s[0] == ' ' ==> p.spaces > 0)
  {
    hide Spaces, KeyEnd, ValueAt, ValueText, LegalItems, Units, Blank;
    var start := Spaces(s);
    var tail := s[start..];
    var k := KeyEnd(tail);
    var text := s[start + k + 1..];
    var v := ValueOf(text);
    p := Pair(start, tail[..k], v);
    SpacesAreBlank(s);
    KeyIsClean(tail);
    assert tail[..k] == s[start..start + k];
    var n := ValueAt(text).value.1;
    Glue(s, start, start + k, start + k + 1 + n);
    assert s[start + k + 1..start + k + 1 + n] == text[..n];
  }

  lemma Glue(s: string, a: nat, b: nat, c: nat)
    requires a <= b < c <= |s| && s[b] == '='
    ensures s[..c] == s[..a] + s[a..b] + "=" + s[b + 1..c]
  {
  }

  lemma {:induction false} LineOf(s: string, spaced: bool) returns (pairs: seq<Pair>, trailing: nat)
    requires FieldsOf(s).Some? && (spaced ==> s == "" || s[0] == ' ')
    ensures LegalLine(pairs, spaced) && s == Line(pairs, trailing)
    ensures FieldsOf(s).value == Fields(pairs, spaced)
    decreases |s|
  {
    hide FirstField, LegalPair, FieldOf, PairText;
    if FirstField(s).Done? {
      pairs := [];
      trailing := |s|;
      DoneIsBlank(s);
    } else {
      var n := FirstField(s).length;
      var p := PairOf(s);
      var rest, left := LineOf(s[n..], p.value.Bare?);
      pairs, trailing := [p] + rest, left;
      assert pairs[1..] == rest && s == s[..n] + s[n..];
      LineOfPair(p, rest, left);
    }
  }

  lemma LineOfPair(p: Pair, rest: seq<Pair>, trailing: nat)
    ensures Line([p] + rest, trailing) == PairText(p) + Line(rest, trailing)
  {
    assert ([p] + rest)[1..] == rest;
  }

  lemma DoneIsBlank(s: string)
    requires FirstField(s).Done?
    ensures s == Blank(|s|)
  {
    SpacesAreBlank(s);
    assert s[..|s|] == s;
  }

  ghost predicate Printed(line: string, fields: seq<Field>) {
    exists pairs: seq<Pair>, trailing: nat :: LegalLine(pairs, false) && line == Line(pairs, trailing) && fields == Fields(pairs, false)
  }

  /** parseFields reads a line exactly when it is one that may have been printed, and then it
      reads exactly what was printed: all of it or nothing. */
  lemma ReadsExactlyWhatIsPrinted(line: string, fields: seq<Field>)
    ensures FieldsOf(line) == Some(fields) <==> Printed(line, fields)
  {
    hide FieldsOf, LegalLine, Line, Fields;
    if FieldsOf(line) == Some(fields) {
      var pairs, trailing := LineOf(line, false);
      assert LegalLine(pairs, false) && line == Line(pairs, trailing) && fields == Fields(pairs, false);
    }
    if Printed(line, fields) {
      var pairs: seq<Pair>, trailing: nat :| LegalLine(pairs, false) && line == Line(pairs, trailing) && fields == Fields(pairs, false);
      LineReads(pairs, trailing, false);
    }
  }
}
