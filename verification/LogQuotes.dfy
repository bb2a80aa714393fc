/** The printer on the other side of the log: a double-quoted literal as Go's %q writes it, digit
    by digit, and that parseValue reads it back. */
module LogQuotes {
  import opened Text
  import opened LogFields
  import opened LogFieldsLaws

  const LOWER := "0123456789abcdef"
  const UPPER := "0123456789ABCDEF"

  /** The `n` last digits of a number. */
  function Digits(v: nat, n: nat, base: nat, alphabet: string): (s: string)
    requires 1 <= base <= |alphabet|
    ensures |s| == n
  {
    if n == 0 then "" else Digits(v / base, n - 1, base, alphabet) + [alphabet[v % base]]
  }

  ghost predicate Fits(v: nat, n: nat, base: nat)
    requires base >= 1
  {
    if n == 0 then v == 0 else Fits(v / base, n - 1, base)
  }

  lemma HexDigits(d: nat)
    requires d < 16
    ensures HexDigit(LOWER[d]) == HexDigit(UPPER[d]) == Some(d)
    ensures d < 8 ==> OctalDigit(LOWER[d]) == Some(d)
  {
  }

  /** A number reads back from its digits, in either case and in base 8. */
  lemma {:induction false} NumberReads(v: nat, n: nat)
    requires Fits(v, n, 16)
    ensures Number(Digits(v, n, 16, LOWER), true) == Number(Digits(v, n, 16, UPPER), true) == Some(v)
  {
    hide HexDigit, OctalDigit;
    if n > 0 {
      NumberReads(v / 16, n - 1);
      HexDigits(v % 16);
      DigitReads(v, n, 16, LOWER, true);
      DigitReads(v, n, 16, UPPER, true);
    }
  }

  lemma {:induction false} OctalReadsBack(v: nat, n: nat)
    requires Fits(v, n, 8)
    ensures Number(Digits(v, n, 8, LOWER), false) == Some(v)
  {
    hide HexDigit, OctalDigit;
    if n > 0 {
      OctalReadsBack(v / 8, n - 1);
      HexDigits(v % 8);
      DigitReads(v, n, 8, LOWER, false);
    }
  }

  lemma DigitReads(v: nat, n: nat, base: nat, alphabet: string, hex: bool)
    requires n > 0 && base == (if hex then 16 else 8) && |alphabet| == 16
    requires (if hex then HexDigit(alphabet[v % base]) else OctalDigit(alphabet[v % base])) == Some(v % base)
    requires Number(Digits(v / base, n - 1, base, alphabet), hex) == Some(v / base)
    ensures Number(Digits(v, n, base, alphabet), hex) == Some(v)
  {
    hide HexDigit, OctalDigit;
    var s := Digits(v, n, base, alphabet);
    assert s[..n - 1] == Digits(v / base, n - 1, base, alphabet) && s[n - 1] == alphabet[v % base];
  }

  /** The letters of the control characters from 7 on, in order. */
  const LETTERS := "abtnvfr"

  /** One character as %q writes it: `printable` is unicode.IsPrint. */
  function QuotedUnit(u: Unit, printable: char -> bool): string
    requires u.Byte? ==> 0x80 <= u.b <= 0xFF
  {
    match u
    case Byte(b) => "\\x" + Digits(b, 2, 16, LOWER)
    case Rune(c) =>
      var v := c as nat;
      if c == '"' || c == '\\' then ['\\', c]
      else if printable(c) then [c]
      else if 7 <= v <= 13 then ['\\', LETTERS[v - 7]]
      else if v < 0x20 || v == 0x7F then "\\x" + Digits(v, 2, 16, LOWER)
      else if v < 0x1_0000 then "\\u" + Digits(v, 4, 16, LOWER)
      else "\\U" + Digits(v, 8, 16, LOWER)
  }

  /** The same as an item of a literal. */
  function QuotedItem(u: Unit, printable: char -> bool): Item
    requires u.Byte? ==> 0x80 <= u.b <= 0xFF
  {
    match u
    case Byte(b) => Code('x', Digits(b, 2, 16, LOWER))
    case Rune(c) =>
      var v := c as nat;
      if c == '"' || c == '\\' then Short(c)
      else if printable(c) then Plain(c)
      else if 7 <= v <= 13 then Short(LETTERS[v - 7])
      else if v < 0x20 || v == 0x7F then Code('x', Digits(v, 2, 16, LOWER))
      else if v < 0x1_0000 then Code('u', Digits(v, 4, 16, LOWER))
      else Code('U', Digits(v, 8, 16, LOWER))
  }

  lemma EightDigits(v: nat)
    ensures v < 0x100 ==> Fits(v, 2, 16)
    ensures v < 0x1_0000 ==> Fits(v, 4, 16)
    ensures v < 0x11_0000 ==> Fits(v, 8, 16)
  {
    var a := v / 16;
    var b := a / 16;
    var c := b / 16;
    var d := c / 16;
    var e := d / 16;
    var f := e / 16;
    var g := f / 16;
    assert Fits(g / 16, 0, 16) <==> g / 16 == 0;
    assert Fits(d, 4, 16) <==> g / 16 == 0 by {
      assert Fits(g, 1, 16) <==> g / 16 == 0;
      assert Fits(f, 2, 16) <==> Fits(g, 1, 16);
      assert Fits(e, 3, 16) <==> Fits(f, 2, 16);
    }
    assert Fits(v, 8, 16) <==> Fits(d, 4, 16) by {
      assert Fits(c, 5, 16) <==> Fits(d, 4, 16);
      assert Fits(b, 6, 16) <==> Fits(c, 5, 16);
      assert Fits(a, 7, 16) <==> Fits(b, 6, 16);
    }
    assert Fits(v, 4, 16) <==> d == 0 by {
      assert Fits(c, 1, 16) <==> d == 0;
      assert Fits(b, 2, 16) <==> Fits(c, 1, 16);
      assert Fits(a, 3, 16) <==> Fits(b, 2, 16);
    }
    assert Fits(v, 2, 16) <==> b == 0 by {
      assert Fits(a, 1, 16) <==> b == 0;
    }
  }

  /** Each unit is a legal item that stands for it. */
  lemma QuotedItemReads(u: Unit, printable: char -> bool)
    requires (u.Byte? ==> 0x80 <= u.b <= 0xFF) && !printable('\n')
    ensures LegalItem(QuotedItem(u, printable)) && ItemUnit(QuotedItem(u, printable)) == u
    ensures ItemText(QuotedItem(u, printable)) == QuotedUnit(u, printable)
  {
    hide Number, Digits, Fits;
    var v := if u.Byte? then u.b else u.c as nat;
    EightDigits(v);
    if v < 0x100 {
      NumberReads(v, 2);
    }
    if v < 0x1_0000 {
      NumberReads(v, 4);
    }
    NumberReads(v, 8);
    if u.Rune? && 7 <= v <= 13 {
      LetterReads(v);
    }
  }

  lemma LetterReads(v: nat)
    requires 7 <= v <= 13
    ensures Letter(LETTERS[v - 7]) == Some(v as char)
  {
  }

  function QuotedText(value: seq<Unit>, printable: char -> bool): string
    requires forall u <- value :: u.Byte? ==> 0x80 <= u.b <= 0xFF
  {
    if value == [] then "" else QuotedUnit(value[0], printable) + QuotedText(value[1..], printable)
  }

  lemma {:induction false} QuotedItems(value: seq<Unit>, printable: char -> bool) returns (items: seq<Item>)
    requires (forall u <- value :: u.Byte? ==> 0x80 <= u.b <= 0xFF) && !printable('\n')
    ensures LegalItems(items) && Units(items) == value && Literal(items) == QuotedText(value, printable)
  {
    hide QuotedItem, QuotedUnit, LegalItem, ItemUnit, ItemText;
    items := [];
    if value != [] {
      assert value[0] in value && forall u <- value[1..] :: u in value;
      var rest := QuotedItems(value[1..], printable);
      QuotedItemReads(value[0], printable);
      items := [QuotedItem(value[0], printable)] + rest;
      assert items[1..] == rest && value == [value[0]] + value[1..];
    }
  }

  /** What %q prints, parseValue reads: the value, and exactly as far as its closing quote. */
  lemma QuotedReadsBack(value: seq<Unit>, printable: char -> bool, rest: string)
    requires (forall u <- value :: u.Byte? ==> 0x80 <= u.b <= 0xFF) && !printable('\n')
    ensures var text := "\"" + QuotedText(value, printable) + "\"";
            ValueAt(text + rest) == Some((value, |text|))
  {
    hide ValueAt, LegalItem, Units, Literal;
    var items := QuotedItems(value, printable);
    ValueReads(Pair(0, "k", Quoted(items)), rest);
  }
}
