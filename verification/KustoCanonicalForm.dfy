/** The canonical form, byte by byte: what one left-to-right reading of the text writes for each piece of it. */
module KustoCanonicalForm {
  import opened KustoCanonical
  import opened KustoCanonicalMeaning
  import opened Utf8

  /** The escape of a character by its four lower-case digits. */
  function Escape(a: Byte, b: Byte, c: Byte, d: Byte): (r: seq<Byte>)
    ensures |r| == 6
  {
    [0x5C, 0x75, a, b, c, d]
  }

  function Small(b: Byte): Byte {
    if 0x41 <= b <= 0x46 then b + 0x20 else b
  }

  /**
    Bytes outside strings and two-character escapes stay. In a string `<`, `>`, `&` and the line separators U+2028
    and U+2029 are escaped, the digits of every escape are lower case, and every other byte stays.
   */
  function Form(s: seq<Byte>, inside: bool): seq<Byte>
    requires Lexical(s, inside)
    decreases |s|
  {
    if s == [] then []
    else if !inside then [s[0]] + Form(s[1..], s[0] == 0x22)
    else if s[0] == 0x22 then [s[0]] + Form(s[1..], false)
    else if UnicodeEscape(s) then Escape(Small(s[2]), Small(s[3]), Small(s[4]), Small(s[5])) + Form(s[6..], true)
    else if s[0] == 0x5C then s[..2] + Form(s[2..], true)
    else if s[0] == 0x3C then Escape(0x30, 0x30, 0x33, 0x63) + Form(s[1..], true)
    else if s[0] == 0x3E then Escape(0x30, 0x30, 0x33, 0x65) + Form(s[1..], true)
    else if s[0] == 0x26 then Escape(0x30, 0x30, 0x32, 0x36) + Form(s[1..], true)
    else if |s| > 2 && s[0] == 0xE2 && s[1] == 0x80 && s[2] == 0xA8 then
      SeparatorMeaning(s);
      Escape(0x32, 0x30, 0x32, 0x38) + Form(s[3..], true)
    else if |s| > 2 && s[0] == 0xE2 && s[1] == 0x80 && s[2] == 0xA9 then
      SeparatorMeaning(s);
      Escape(0x32, 0x30, 0x32, 0x39) + Form(s[3..], true)
    else [s[0]] + Form(s[1..], true)
  }

  /** The second pass after an escape, a two-character escape or a byte that the first pass wrote. */
  lemma LowerAfterEscape(x: seq<Byte>, r: seq<Byte>)
    requires |x| == 6 && UnicodeEscape(x) && Lexical(r, true)
    ensures Lexical(x + r, true) && LowerText(x + r, true) == LowerFourDigits(x) + LowerText(r, true)
  {
    EscapeInFront(x, r);
  }

  lemma LowerAfterSimple(x: seq<Byte>, r: seq<Byte>)
    requires |x| == 2 && SimpleEscape(x) && Lexical(r, true)
    ensures Lexical(x + r, true) && LowerText(x + r, true) == x + LowerText(r, true)
  {
    SimpleInFront(x, r);
    assert (x + r)[..2] == x;
  }

  lemma LowerAfterByte(b: Byte, r: seq<Byte>)
    requires b >= 0x20 && b != QUOTE && b != BACKSLASH && Lexical(r, true)
    ensures Lexical([b] + r, true) && LowerText([b] + r, true) == [b] + LowerText(r, true)
  {
    ByteInFront(b, r);
  }

  /** On every lexically valid text the two passes write exactly this form. */
  lemma {:induction false} PassesWriteForm(s: seq<Byte>, inside: bool)
    requires Lexical(s, inside)
    ensures Lexical(Rewrite(s, ModeFor(inside)), inside)
    ensures LowerText(Rewrite(s, ModeFor(inside)), inside) == Form(s, inside)
    decreases |s|, 1
  {
    if s == [] {
    } else if !inside || s[0] == QUOTE {
      OuterWritesForm(s, inside);
    } else if s[0] == BACKSLASH {
      EscapesWriteForm(s);
    } else if Markup(s[0]) {
      MarkupWritesForm(s);
    } else if Separator(s) {
      SeparatorWritesForm(s);
    } else {
      PlainWritesForm(s);
    }
  }

  /** A byte outside strings, or the quote that ends one. */
  lemma {:induction false} OuterWritesForm(s: seq<Byte>, inside: bool)
    requires s != [] && Lexical(s, inside) && (inside ==> s[0] == QUOTE)
    ensures Lexical(Rewrite(s, ModeFor(inside)), inside)
    ensures LowerText(Rewrite(s, ModeFor(inside)), inside) == Form(s, inside)
    decreases |s|, 0
  {
    var next := !inside && s[0] == QUOTE;
    PassesWriteForm(s[1..], next);
    RewriteCopies(s, ModeFor(inside));
    if inside {
      QuoteInFront(Rewrite(s[1..], Outer));
    } else {
      OuterInFront(s[0], Rewrite(s[1..], ModeFor(next)));
    }
  }

  lemma {:induction false} PlainWritesForm(s: seq<Byte>)
    requires Plain(s) && Lexical(s, true)
    ensures Lexical(Rewrite(s, Inner), true) && LowerText(Rewrite(s, Inner), true) == Form(s, true)
    decreases |s|, 0
  {
    PassesWriteForm(s[1..], true);
    RewritePlain(s);
    LowerAfterByte(s[0], Rewrite(s[1..], Inner));
  }

  lemma {:induction false} MarkupWritesForm(s: seq<Byte>)
    requires s != [] && Markup(s[0]) && Lexical(s, true)
    ensures Lexical(Rewrite(s, Inner), true) && LowerText(Rewrite(s, Inner), true) == Form(s, true)
    decreases |s|, 0
  {
    var x := MarkupEscape(s[0]);
    PassesWriteForm(s[1..], true);
    MarkupDecodes(s[0]);
    LowerAfterEscape(x, Rewrite(s[1..], Inner));
    assert LowerFourDigits(x) == x;
  }

  lemma {:induction false} SeparatorWritesForm(s: seq<Byte>)
    requires Separator(s) && Lexical(s, true)
    ensures Lexical(Rewrite(s, Inner), true) && LowerText(Rewrite(s, Inner), true) == Form(s, true)
    decreases |s|, 0
  {
    var x := SeparatorEscape(s[2]);
    SeparatorMeaning(s);
    PassesWriteForm(s[3..], true);
    SeparatorDecodes(s[2]);
    LowerAfterEscape(x, Rewrite(s[3..], Inner));
    assert LowerFourDigits(x) == x;
  }

  lemma {:induction false} EscapesWriteForm(s: seq<Byte>)
    requires s != [] && s[0] == BACKSLASH && Lexical(s, true)
    ensures Lexical(Rewrite(s, Inner), true) && LowerText(Rewrite(s, Inner), true) == Form(s, true)
    decreases |s|, 0
  {
    if UnicodeEscape(s) {
      PassesWriteForm(s[6..], true);
      RewriteEscape(s);
      LowerAfterEscape(s[..6], Rewrite(s[6..], Inner));
    } else {
      PassesWriteForm(s[2..], true);
      RewriteSimple(s);
      LowerAfterSimple(s[..2], Rewrite(s[2..], Inner));
    }
  }

  /** The canonical bytes of every lexically valid text. */
  lemma CanonicalExactly(s: seq<Byte>)
    requires Lexical(s, false)
    ensures Canonical(s) == Form(s, false)
  {
    CanonicalIsScan(s);
    PassesWriteForm(s, false);
  }
}
