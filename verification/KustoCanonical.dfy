/** Re-escaping serialised JSON bytes into the canonical form the sender uses. */
module KustoCanonical {
  import opened Concatenation
  import opened Utf8
  import opened Wrappers

  const QUOTE: Byte := 0x22
  const BACKSLASH: Byte := 0x5C
  const LETTER_U: Byte := 0x75

  // ----- JSON lexical structure (section 7 of RFC 8259)

  predicate IsHex(b: Byte) {
    0x30 <= b <= 0x39 || 0x41 <= b <= 0x46 || 0x61 <= b <= 0x66
  }

  function HexValue(b: Byte): (n: nat)
    requires IsHex(b)
    ensures n < 16
  {
    if b <= 0x39 then b as int - 0x30 else if b <= 0x46 then b as int - 0x37 else b as int - 0x57
  }

  /** A `\uXXXX` escape at the front. */
  predicate UnicodeEscape(s: seq<Byte>) {
    |s| >= 6 && s[0] == BACKSLASH && s[1] == LETTER_U && IsHex(s[2]) && IsHex(s[3]) && IsHex(s[4]) && IsHex(s[5])
  }

  function Code(s: seq<Byte>): (n: nat)
    requires UnicodeEscape(s)
    ensures n < 0x1_0000
  {
    HexValue(s[2]) * 4096 + HexValue(s[3]) * 256 + HexValue(s[4]) * 16 + HexValue(s[5])
  }

  /** What a two-character escape stands for. */
  function SimpleValue(b: Byte): Option<Byte> {
    match b
    case 0x22 => Some(0x22)
    case 0x5C => Some(0x5C)
    case 0x2F => Some(0x2F)
    case 0x62 => Some(0x08)
    case 0x66 => Some(0x0C)
    case 0x6E => Some(0x0A)
    case 0x72 => Some(0x0D)
    case 0x74 => Some(0x09)
    case _ => None
  }

  predicate SimpleEscape(s: seq<Byte>) {
    |s| >= 2 && s[0] == BACKSLASH && SimpleValue(s[1]).Some?
  }

  /** Strings are closed and escaped as JSON requires, and no backslash stands outside one. */
  predicate Lexical(s: seq<Byte>, inside: bool)
    decreases |s|
  {
    if !inside then s == [] || (s[0] != BACKSLASH && Lexical(s[1..], s[0] == QUOTE))
    else
      && s != []
      && if s[0] == QUOTE then Lexical(s[1..], false)
         else if UnicodeEscape(s) then Lexical(s[6..], true)
         else if s[0] == BACKSLASH then SimpleEscape(s) && Lexical(s[2..], true)
         else s[0] >= 0x20 && Lexical(s[1..], true)
  }

  /** A byte outside strings, or a byte of a decoded string. */
  datatype Item = Outside(b: Byte) | Decoded(b: Byte)

  function DecodedAll(s: seq<Byte>): (r: seq<Item>)
    ensures |r| == |s| && forall i | 0 <= i < |s| :: r[i] == Decoded(s[i])
  {
    seq(|s|, i requires 0 <= i < |s| => Decoded(s[i]))
  }

  /**
   * The text with its strings decoded. An escape decodes to the UTF-8 bytes of its code unit,
   * so equal meanings have equal decoded strings.
   */
  function Meaning(s: seq<Byte>, inside: bool): seq<Item>
    requires Lexical(s, inside)
    decreases |s|
  {
    if s == [] then []
    else if !inside then [Outside(s[0])] + Meaning(s[1..], s[0] == QUOTE)
    else if s[0] == QUOTE then [Outside(s[0])] + Meaning(s[1..], false)
    else if UnicodeEscape(s) then DecodedAll(BytesOf(Code(s))) + Meaning(s[6..], true)
    else if s[0] == BACKSLASH then [Decoded(SimpleValue(s[1]).value)] + Meaning(s[2..], true)
    else [Decoded(s[0])] + Meaning(s[1..], true)
  }

  // ----- the first pass

  datatype Mode = Outer | Inner | Escaped

  function Step(mode: Mode, b: Byte): Mode {
    match mode
    case Outer => if b == QUOTE then Inner else Outer
    case Escaped => Inner
    case Inner => if b == BACKSLASH then Escaped else if b == QUOTE then Outer else Inner
  }

  predicate Markup(b: Byte) {
    b == 0x3C || b == 0x3E || b == 0x26
  }

  /** The line separators U+2028 and U+2029. */
  predicate Separator(s: seq<Byte>) {
    |s| >= 3 && s[0] == 0xE2 && s[1] == 0x80 && (s[2] == 0xA8 || s[2] == 0xA9)
  }

  /** The escapes of the three markup characters. */
  function MarkupEscape(b: Byte): seq<Byte>
    requires Markup(b)
  {
    [BACKSLASH, LETTER_U, 0x30, 0x30] + (if b == 0x3C then [0x33, 0x63] else if b == 0x3E then [0x33, 0x65]
                                         else [0x32, 0x36])
  }

  /** The escapes of the two line separators. */
  function SeparatorEscape(b: Byte): seq<Byte> {
    [BACKSLASH, LETTER_U, 0x32, 0x30, 0x32, if b == 0xA8 then 0x38 else 0x39]
  }

  function Rewrite(s: seq<Byte>, mode: Mode): seq<Byte>
    decreases |s|
  {
    if s == [] then []
    else if mode.Inner? && Markup(s[0]) then MarkupEscape(s[0]) + Rewrite(s[1..], mode)
    else if mode.Inner? && Separator(s) then SeparatorEscape(s[2]) + Rewrite(s[3..], mode)
    else [s[0]] + Rewrite(s[1..], Step(mode, s[0]))
  }

  /** The writing loop with its `inString` and `escaped` flags. */
  method RewriteBytes(encoded: seq<Byte>) returns (written: seq<Byte>)
    ensures written == Rewrite(encoded, Outer)
  {
    written := [];
    var inString, escaped := false, false;
    var index := 0;
    assert encoded[0..] == encoded;
    while index < |encoded|
      invariant index <= |encoded| && (escaped ==> inString)
      invariant written + Rewrite(encoded[index..], ModeOf(inString, escaped)) == Rewrite(encoded, Outer)
    {
      ghost var rest := encoded[index..];
      var current := encoded[index];
      if inString && !escaped && Markup(current) {
        assert rest[1..] == encoded[index + 1..];
        Assoc(written, MarkupEscape(current), Rewrite(rest[1..], Inner));
        written := written + MarkupEscape(current);
        index := index + 1;
        continue;
      }
      if inString && !escaped && index + 2 < |encoded| && current == 0xE2 && encoded[index + 1] == 0x80
         && (encoded[index + 2] == 0xA8 || encoded[index + 2] == 0xA9) {
        assert Separator(rest) && rest[3..] == encoded[index + 3..];
        Assoc(written, SeparatorEscape(rest[2]), Rewrite(rest[3..], Inner));
        written := written + SeparatorEscape(encoded[index + 2]);
        index := index + 3;
        continue;
      }
      assert rest[1..] == encoded[index + 1..];
      ghost var mode := ModeOf(inString, escaped);
      Assoc(written, [current], Rewrite(rest[1..], Step(mode, current)));
      written := written + [current];
      if !inString && current == QUOTE {
        inString := true;
      } else if inString && escaped {
        escaped := false;
      } else if inString && current == BACKSLASH {
        escaped := true;
      } else if inString && current == QUOTE {
        inString := false;
      }
      assert ModeOf(inString, escaped) == Step(mode, current);
      index := index + 1;
    }
    assert encoded[index..] == [] && written + [] == written;
  }

  function ModeOf(inString: bool, escaped: bool): Mode {
    if !inString then Outer else if escaped then Escaped else Inner
  }

  // ----- the second pass

  function LowerHex(b: Byte): Byte {
    if 0x41 <= b <= 0x46 then b + 0x20 else b
  }

  /** How many backslashes stand directly before `k`. */
  function RunBefore(s: seq<Byte>, k: nat): nat
    requires k <= |s|
  {
    if k > 0 && s[k - 1] == BACKSLASH then 1 + RunBefore(s, k - 1) else 0
  }

  /** The test of the second pass: `\u` with room for four digits and an odd run of backslashes. */
  predicate EscapeStart(s: seq<Byte>, e: nat) {
    e + 5 < |s| && s[e] == BACKSLASH && s[e + 1] == LETTER_U && (1 + RunBefore(s, e)) % 2 == 1
  }

  predicate Covered(s: seq<Byte>, limit: nat, i: nat) {
    exists e: nat | e < limit :: EscapeStart(s, e) && e + 2 <= i < e + 6
  }

  /** The bytes with the digits of every escape that starts before `limit` in lower case. */
  function LowerUpTo(s: seq<Byte>, limit: nat): (r: seq<Byte>)
    ensures |r| == |s| && forall i | 0 <= i < |s| :: r[i] == if Covered(s, limit, i) then LowerHex(s[i]) else s[i]
  {
    seq(|s|, i requires 0 <= i < |s| => if Covered(s, limit, i) then LowerHex(s[i]) else s[i])
  }

  function LowerBytes(s: seq<Byte>): seq<Byte> {
    LowerUpTo(s, |s|)
  }

  /** Bytes that differ only in the case of digits have the same backslashes and escape starts. */
  predicate SameMarks(s: seq<Byte>, t: seq<Byte>) {
    |s| == |t| && forall i | 0 <= i < |s| :: t[i] == s[i] || t[i] == LowerHex(s[i])
  }

  lemma {:induction false} SameRuns(s: seq<Byte>, t: seq<Byte>, k: nat)
    requires SameMarks(s, t) && k <= |s|
    ensures RunBefore(s, k) == RunBefore(t, k)
  {
    if k > 0 {
      SameRuns(s, t, k - 1);
    }
  }

  /** The in-place loop over the canonical buffer. */
  method LowerEscapes(a: array<Byte>)
    modifies a
    ensures a[..] == LowerBytes(old(a[..]))
  {
    ghost var was := a[..];
    var index := 0;
    while index + 5 < a.Length
      invariant 0 <= index && a[..] == LowerUpTo(was, index)
    {
      SameRuns(was, a[..], index);
      if a[index] == BACKSLASH && a[index + 1] == LETTER_U {
        var slashCount := 1;
        var prior := index - 1;
        while prior >= 0 && a[prior] == BACKSLASH
          invariant -1 <= prior < index
          invariant slashCount + RunBefore(a[..], prior + 1) == 1 + RunBefore(a[..], index)
        {
          slashCount := slashCount + 1;
          prior := prior - 1;
        }
        if slashCount % 2 == 1 {
          LowerFour(a, index, was);
        } else {
          NotAStart(was, index);
        }
      } else {
        NotAStart(was, index);
      }
      index := index + 1;
    }
    assert forall e: nat | index <= e :: !EscapeStart(was, e);
    assert a[..] == LowerBytes(was);
  }

  lemma NotAStart(s: seq<Byte>, index: nat)
    requires !EscapeStart(s, index)
    ensures LowerUpTo(s, index + 1) == LowerUpTo(s, index)
  {
    forall i | 0 <= i < |s| ensures Covered(s, index + 1, i) == Covered(s, index, i) {
    }
  }

  method LowerFour(a: array<Byte>, index: nat, ghost was: seq<Byte>)
    requires index + 5 < a.Length == |was| && EscapeStart(was, index) && a[..] == LowerUpTo(was, index)
    modifies a
    ensures a[..] == LowerUpTo(was, index + 1)
  {
    for digit := index + 2 to index + 6
      invariant forall i | 0 <= i < a.Length ::
          a[i] == if index + 2 <= i < digit then LowerHex(was[i]) else LowerUpTo(was, index)[i]
    {
      if 0x41 <= a[digit] <= 0x46 {
        a[digit] := a[digit] + 0x20;
      }
    }
    forall i | 0 <= i < a.Length ensures a[i] == LowerUpTo(was, index + 1)[i] {
      if Covered(was, index, i) {
        assert Covered(was, index + 1, i);
      }
      assert Covered(was, index + 1, i) ==> Covered(was, index, i) || index + 2 <= i < index + 6;
    }
  }

  /** The whole of `CanonicalBytes` on serialised bytes. */
  method CanonicalBytes(encoded: seq<Byte>) returns (canonical: array<Byte>)
    ensures canonical[..] == LowerBytes(Rewrite(encoded, Outer))
  {
    var written := RewriteBytes(encoded);
    canonical := new Byte[|written|](i requires 0 <= i < |written| => written[i]);
    assert canonical[..] == written;
    LowerEscapes(canonical);
  }
}
