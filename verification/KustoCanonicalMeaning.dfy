/** What the canonical rewriting of JSON bytes keeps, and that doing it twice changes nothing more. */
module KustoCanonicalMeaning {
  import opened Concatenation
  import opened Utf8
  import opened KustoCanonical

  function ModeFor(inside: bool): Mode {
    if inside then Inner else Outer
  }

  // ----- reading one escape or byte off the front

  /** A whole `\uXXXX` escape in front of a text. */
  lemma EscapeInFront(x: seq<Byte>, r: seq<Byte>)
    requires |x| == 6 && UnicodeEscape(x)
    ensures UnicodeEscape(x + r) && Code(x + r) == Code(x) && (x + r)[6..] == r
    ensures Lexical(x + r, true) <==> Lexical(r, true)
    ensures Lexical(r, true) ==> Meaning(x + r, true) == DecodedAll(BytesOf(Code(x))) + Meaning(r, true)
  {
    assert forall i | 0 <= i < 6 :: (x + r)[i] == x[i];
  }

  lemma SimpleInFront(x: seq<Byte>, r: seq<Byte>)
    requires |x| == 2 && SimpleEscape(x)
    ensures !UnicodeEscape(x + r) && SimpleEscape(x + r) && (x + r)[2..] == r && (x + r)[0] == BACKSLASH
            && (x + r)[1] == x[1]
    ensures Lexical(x + r, true) <==> Lexical(r, true)
    ensures Lexical(r, true) ==> Meaning(x + r, true) == [Decoded(SimpleValue(x[1]).value)] + Meaning(r, true)
  {
    assert (x + r)[0] == x[0] && (x + r)[1] == x[1];
  }

  lemma ByteInFront(b: Byte, r: seq<Byte>)
    requires b >= 0x20 && b != QUOTE && b != BACKSLASH
    ensures ([b] + r)[1..] == r && !UnicodeEscape([b] + r)
    ensures Lexical([b] + r, true) <==> Lexical(r, true)
    ensures Lexical(r, true) ==> Meaning([b] + r, true) == [Decoded(b)] + Meaning(r, true)
  {
    assert ([b] + r)[1..] == r;
  }

  lemma OuterInFront(b: Byte, r: seq<Byte>)
    requires b != BACKSLASH
    ensures ([b] + r)[1..] == r
    ensures Lexical([b] + r, false) <==> Lexical(r, b == QUOTE)
    ensures Lexical(r, b == QUOTE) ==> Meaning([b] + r, false) == [Outside(b)] + Meaning(r, b == QUOTE)
  {
    assert ([b] + r)[1..] == r;
  }

  lemma QuoteInFront(r: seq<Byte>)
    ensures ([QUOTE] + r)[1..] == r && !UnicodeEscape([QUOTE] + r)
    ensures Lexical([QUOTE] + r, true) <==> Lexical(r, false)
    ensures Lexical(r, false) ==> Meaning([QUOTE] + r, true) == [Outside(QUOTE)] + Meaning(r, false)
  {
    assert ([QUOTE] + r)[1..] == r;
  }

  lemma SplitAt<T>(s: seq<T>, n: nat)
    requires n <= |s|
    ensures s == s[..n] + s[n..]
  {
  }

  // ----- the first pass keeps every string

  lemma RewriteCopies(s: seq<Byte>, mode: Mode)
    requires s != [] && !(mode.Inner? && (Markup(s[0]) || Separator(s)))
    ensures Rewrite(s, mode) == [s[0]] + Rewrite(s[1..], Step(mode, s[0]))
  {
  }

  lemma RewriteSimple(s: seq<Byte>)
    requires |s| >= 2 && s[0] == BACKSLASH
    ensures Rewrite(s, Inner) == s[..2] + Rewrite(s[2..], Inner)
  {
    RewriteCopies(s, Inner);
    RewriteCopies(s[1..], Escaped);
    assert s[1..][1..] == s[2..] && s[..2] == [s[0]] + [s[1]];
    Assoc([s[0]], [s[1]], Rewrite(s[2..], Inner));
  }

  /** A byte the first pass copies and that leaves the mode alone. */
  predicate Plain(s: seq<Byte>) {
    s != [] && s[0] != QUOTE && s[0] != BACKSLASH && !Markup(s[0]) && !Separator(s)
  }

  lemma RewritePlain(s: seq<Byte>)
    requires Plain(s)
    ensures Rewrite(s, Inner) == [s[0]] + Rewrite(s[1..], Inner)
  {
    RewriteCopies(s, Inner);
  }

  lemma HexIsPlain(s: seq<Byte>)
    requires s != [] && IsHex(s[0])
    ensures Plain(s)
  {
  }

  lemma RewriteEscape(s: seq<Byte>)
    requires UnicodeEscape(s)
    ensures Rewrite(s, Inner) == s[..6] + Rewrite(s[6..], Inner)
  {
    var r := Rewrite(s[6..], Inner);
    RewriteSimple(s);
    RewriteDigits(s[2..], 4);
    assert s[2..][4..] == s[6..];
    assert s[..6] == s[..2] + s[2..][..4];
    Assoc(s[..2], s[2..][..4], r);
  }

  lemma {:induction false} RewriteDigits(s: seq<Byte>, n: nat)
    requires n <= |s| && forall i | 0 <= i < n :: IsHex(s[i])
    ensures Rewrite(s, Inner) == s[..n] + Rewrite(s[n..], Inner)
  {
    if n == 0 {
      assert s[..0] == [] && s[0..] == s && [] + Rewrite(s, Inner) == Rewrite(s, Inner);
    } else {
      HexIsPlain(s);
      RewritePlain(s);
      RewriteDigits(s[1..], n - 1);
      assert s[1..][n - 1..] == s[n..];
      assert s[..n] == [s[0]] + s[1..][..n - 1];
      Assoc([s[0]], s[1..][..n - 1], Rewrite(s[n..], Inner));
    }
  }

  lemma MarkupDecodes(b: Byte)
    requires Markup(b)
    ensures var x := MarkupEscape(b);
            |x| == 6 && UnicodeEscape(x) && Code(x) == b && DecodedAll(BytesOf(Code(x))) == [Decoded(b)]
  {
    var x := MarkupEscape(b);
    assert x[0] == BACKSLASH && x[1] == LETTER_U && x[2] == 0x30 && x[3] == 0x30;
    assert BytesOf(b) == [b];
  }

  lemma SeparatorDecodes(b: Byte)
    requires b == 0xA8 || b == 0xA9
    ensures var x := SeparatorEscape(b);
            |x| == 6 && UnicodeEscape(x) && BytesOf(Code(x)) == [0xE2, 0x80, b]
  {
    var x := SeparatorEscape(b);
    assert Code(x) == 0x2000 + b as int - 0x80;
  }

  lemma SeparatorMeaning(s: seq<Byte>)
    requires Separator(s) && Lexical(s, true)
    ensures Lexical(s[3..], true)
    ensures Meaning(s, true) == DecodedAll([0xE2, 0x80, s[2]]) + Meaning(s[3..], true)
  {
    SplitAt(s, 1);
    ByteInFront(s[0], s[1..]);
    SplitAt(s[1..], 1);
    ByteInFront(s[1], s[2..]);
    assert s[1..][1..] == s[2..] && s[1..][..1] == [s[1]] && s[..1] == [s[0]];
    SplitAt(s[2..], 1);
    assert s[2..][1..] == s[3..] && s[2..][..1] == [s[2]];
    ByteInFront(s[2], s[3..]);
    var m := Meaning(s[3..], true);
    assert [Decoded(s[0])] + ([Decoded(s[1])] + ([Decoded(s[2])] + m))
           == [Decoded(s[0]), Decoded(s[1]), Decoded(s[2])] + m;
    assert DecodedAll([0xE2, 0x80, s[2]]) == [Decoded(s[0]), Decoded(s[1]), Decoded(s[2])];
  }

  /** The first pass keeps the lexical structure and what every string decodes to. */
  lemma {:induction false} RewriteKeeps(s: seq<Byte>, inside: bool)
    requires Lexical(s, inside)
    ensures Lexical(Rewrite(s, ModeFor(inside)), inside)
    ensures Meaning(Rewrite(s, ModeFor(inside)), inside) == Meaning(s, inside)
    decreases |s|
  {
    if s == [] {
    } else if !inside {
      RewriteKeeps(s[1..], s[0] == QUOTE);
      OuterInFront(s[0], Rewrite(s[1..], ModeFor(s[0] == QUOTE)));
    } else if s[0] == QUOTE {
      RewriteKeeps(s[1..], false);
      QuoteInFront(Rewrite(s[1..], Outer));
    } else if UnicodeEscape(s) {
      RewriteKeeps(s[6..], true);
      RewriteEscape(s);
      EscapeInFront(s[..6], Rewrite(s[6..], Inner));
      assert Code(s[..6]) == Code(s);
    } else if s[0] == BACKSLASH {
      RewriteKeeps(s[2..], true);
      RewriteSimple(s);
      SimpleInFront(s[..2], Rewrite(s[2..], Inner));
    } else if Markup(s[0]) {
      RewriteKeeps(s[1..], true);
      MarkupDecodes(s[0]);
      EscapeInFront(MarkupEscape(s[0]), Rewrite(s[1..], Inner));
    } else if Separator(s) {
      SeparatorMeaning(s);
      RewriteKeeps(s[3..], true);
      SeparatorDecodes(s[2]);
      EscapeInFront(SeparatorEscape(s[2]), Rewrite(s[3..], Inner));
    } else {
      RewriteKeeps(s[1..], true);
      RewritePlain(s);
      ByteInFront(s[0], Rewrite(s[1..], Inner));
    }
  }

  // ----- the parity test finds the escapes

  /** The scanner's mode in front of position `k`, from the start of the text. */
  function ModeAt(s: seq<Byte>, k: nat): Mode
    requires k <= |s|
  {
    if k == 0 then Outer else Step(ModeAt(s, k - 1), s[k - 1])
  }

  /** A backslash ends an odd run exactly when the left-to-right scanner takes it as the start of an escape. */
  lemma {:induction false} ParityFindsEscapes(s: seq<Byte>, k: nat)
    requires k < |s| && s[k] == BACKSLASH
    requires forall i | 0 <= i <= k && s[i] == BACKSLASH :: !ModeAt(s, i).Outer?
    ensures ModeAt(s, k).Inner? <==> (1 + RunBefore(s, k)) % 2 == 1
    ensures ModeAt(s, k).Escaped? <==> (1 + RunBefore(s, k)) % 2 == 0
  {
    if k > 0 && s[k - 1] == BACKSLASH {
      ParityFindsEscapes(s, k - 1);
    }
  }

  /** Lexically valid text has no backslash outside strings, wherever it is scanned from. */
  lemma {:induction false} NoOuterBackslash(s: seq<Byte>, k: nat, i: nat)
    requires k <= i < |s| && !ModeAt(s, k).Escaped? && Lexical(s[k..], ModeAt(s, k).Inner?) && s[i] == BACKSLASH
    ensures !ModeAt(s, i).Outer?
    decreases |s| - k
  {
    var rest := s[k..];
    if ModeAt(s, k).Outer? || rest[0] == QUOTE {
      assert s[k + 1..] == rest[1..];
      NoOuterBackslash(s, k + 1, i);
    } else if UnicodeEscape(rest) {
      assert rest[1] == s[k + 1] && rest[2] == s[k + 2] && rest[3] == s[k + 3] && rest[4] == s[k + 4]
             && rest[5] == s[k + 5];
      assert ModeAt(s, k + 1).Escaped? && ModeAt(s, k + 2).Inner? && ModeAt(s, k + 3).Inner? && ModeAt(s, k + 4).Inner?;
      assert ModeAt(s, k + 5).Inner? && ModeAt(s, k + 6).Inner?;
      assert s[k + 6..] == rest[6..];
      if i >= k + 6 {
        NoOuterBackslash(s, k + 6, i);
      }
    } else if rest[0] == BACKSLASH {
      assert ModeAt(s, k + 1).Escaped? && ModeAt(s, k + 2).Inner?;
      assert s[k + 2..] == rest[2..];
      if i >= k + 2 {
        NoOuterBackslash(s, k + 2, i);
      }
    } else {
      assert s[k + 1..] == rest[1..];
      NoOuterBackslash(s, k + 1, i);
    }
  }

  /** On every lexically valid text the parity test and the scanner agree. */
  lemma ParityAgrees(s: seq<Byte>, k: nat)
    requires Lexical(s, false) && k < |s| && s[k] == BACKSLASH
    ensures ModeAt(s, k).Inner? <==> (1 + RunBefore(s, k)) % 2 == 1
  {
    assert s[0..] == s;
    forall i | 0 <= i <= k && s[i] == BACKSLASH ensures !ModeAt(s, i).Outer? {
      NoOuterBackslash(s, 0, i);
    }
    ParityFindsEscapes(s, k);
  }

  // ----- the second pass keeps every string

  function LowerFourDigits(s: seq<Byte>): (r: seq<Byte>)
    requires |s| >= 6
    ensures |r| == 6
  {
    [s[0], s[1], LowerHex(s[2]), LowerHex(s[3]), LowerHex(s[4]), LowerHex(s[5])]
  }

  /** The second pass as a left-to-right scan. */
  function LowerText(s: seq<Byte>, inside: bool): seq<Byte>
    requires Lexical(s, inside)
    decreases |s|
  {
    if s == [] then []
    else if !inside then [s[0]] + LowerText(s[1..], s[0] == QUOTE)
    else if s[0] == QUOTE then [s[0]] + LowerText(s[1..], false)
    else if UnicodeEscape(s) then LowerFourDigits(s) + LowerText(s[6..], true)
    else if s[0] == BACKSLASH then s[..2] + LowerText(s[2..], true)
    else [s[0]] + LowerText(s[1..], true)
  }

  lemma LowerDecodes(s: seq<Byte>)
    requires UnicodeEscape(s)
    ensures UnicodeEscape(LowerFourDigits(s)) && Code(LowerFourDigits(s)) == Code(s)
  {
  }

  /** Lower-case digits decode to the same strings. */
  lemma {:induction false} LowerKeeps(s: seq<Byte>, inside: bool)
    requires Lexical(s, inside)
    ensures Lexical(LowerText(s, inside), inside) && Meaning(LowerText(s, inside), inside) == Meaning(s, inside)
    decreases |s|
  {
    if s == [] {
    } else if !inside {
      LowerKeeps(s[1..], s[0] == QUOTE);
      OuterInFront(s[0], LowerText(s[1..], s[0] == QUOTE));
    } else if s[0] == QUOTE {
      LowerKeeps(s[1..], false);
      QuoteInFront(LowerText(s[1..], false));
    } else if UnicodeEscape(s) {
      LowerKeeps(s[6..], true);
      LowerDecodes(s);
      EscapeInFront(LowerFourDigits(s), LowerText(s[6..], true));
    } else if s[0] == BACKSLASH {
      LowerKeeps(s[2..], true);
      SimpleInFront(s[..2], LowerText(s[2..], true));
    } else {
      LowerKeeps(s[1..], true);
      ByteInFront(s[0], LowerText(s[1..], true));
    }
  }

  /** No escape that the second pass finds before `k` reaches past it, and `k` follows an even run. */
  predicate Settled(s: seq<Byte>, k: nat) {
    k <= |s| && RunBefore(s, k) % 2 == 0 && forall e: nat | e < k && EscapeStart(s, e) :: e + 6 <= k
  }

  lemma SettledByte(s: seq<Byte>, k: nat)
    requires Settled(s, k) && k < |s| && s[k] != BACKSLASH
    ensures Settled(s, k + 1) && LowerBytes(s)[k] == s[k]
  {
    assert !Covered(s, |s|, k);
  }

  lemma SettledSimple(s: seq<Byte>, k: nat)
    requires Settled(s, k) && k + 1 < |s| && SimpleEscape(s[k..])
    ensures Settled(s, k + 2) && LowerBytes(s)[k] == s[k] && LowerBytes(s)[k + 1] == s[k + 1]
  {
    assert s[k] == BACKSLASH && s[k + 1] != LETTER_U;
    assert RunBefore(s, k + 1) == 1 + RunBefore(s, k);
    assert !EscapeStart(s, k) && !EscapeStart(s, k + 1);
    assert !Covered(s, |s|, k) && !Covered(s, |s|, k + 1);
  }

  lemma SettledEscape(s: seq<Byte>, k: nat)
    requires Settled(s, k) && k + 5 < |s| && UnicodeEscape(s[k..])
    ensures Settled(s, k + 6) && LowerBytes(s)[k..k + 6] == LowerFourDigits(s[k..])
  {
    var x := s[k..];
    assert forall i | 0 <= i < 6 :: x[i] == s[k + i];
    assert s[k + 1] != BACKSLASH && s[k + 2] != BACKSLASH && s[k + 3] != BACKSLASH && s[k + 4] != BACKSLASH
           && s[k + 5] != BACKSLASH;
    assert EscapeStart(s, k);
    assert !Covered(s, |s|, k) && !Covered(s, |s|, k + 1);
    assert Covered(s, |s|, k + 2) && Covered(s, |s|, k + 3) && Covered(s, |s|, k + 4) && Covered(s, |s|, k + 5);
  }

  lemma Peel(t: seq<Byte>, k: nat, n: nat, front: seq<Byte>, rest: seq<Byte>)
    requires k + n <= |t| && t[k..k + n] == front && t[k + n..] == rest
    ensures t[k..] == front + rest
  {
  }

  /** On lexically valid text the position-by-position pass is the left-to-right scan. */
  lemma {:induction false} LowerAgrees(s: seq<Byte>, k: nat, inside: bool)
    requires Settled(s, k) && Lexical(s[k..], inside)
    ensures LowerBytes(s)[k..] == LowerText(s[k..], inside)
    decreases |s| - k, 1
  {
    var rest := s[k..];
    if k == |s| {
    } else if inside && UnicodeEscape(rest) {
      LowerEscape(s, k);
    } else if inside && rest[0] == BACKSLASH {
      LowerSimple(s, k);
    } else {
      LowerPlain(s, k, inside);
    }
  }

  lemma {:induction false} LowerEscape(s: seq<Byte>, k: nat)
    requires k < |s| && Settled(s, k) && Lexical(s[k..], true) && UnicodeEscape(s[k..])
    ensures LowerBytes(s)[k..] == LowerText(s[k..], true)
    decreases |s| - k, 0
  {
    SettledEscape(s, k);
    LowerRest(s, k, 6, LowerFourDigits(s[k..]), true);
  }

  lemma {:induction false} LowerSimple(s: seq<Byte>, k: nat)
    requires k < |s| && Settled(s, k) && Lexical(s[k..], true) && s[k] == BACKSLASH && !UnicodeEscape(s[k..])
    ensures LowerBytes(s)[k..] == LowerText(s[k..], true)
    decreases |s| - k, 0
  {
    SettledSimple(s, k);
    LowerRest(s, k, 2, s[k..][..2], true);
  }

  lemma {:induction false} LowerPlain(s: seq<Byte>, k: nat, inside: bool)
    requires k < |s| && Settled(s, k) && Lexical(s[k..], inside) && s[k] != BACKSLASH
    ensures LowerBytes(s)[k..] == LowerText(s[k..], inside)
    decreases |s| - k, 0
  {
    var next := if inside then s[k] != QUOTE else s[k] == QUOTE;
    SettledByte(s, k);
    LowerOfByte(s[k..], inside, next);
    LowerRest(s, k, 1, [s[k]], next);
  }

  /** The scan goes on behind the first `n` bytes. */
  lemma {:induction false} LowerRest(s: seq<Byte>, k: nat, n: nat, front: seq<Byte>, next: bool)
    requires k + n <= |s| && Settled(s, k + n) && Lexical(s[k..][n..], next) && LowerBytes(s)[k..k + n] == front
    ensures LowerBytes(s)[k..] == front + LowerText(s[k..][n..], next)
    decreases |s| - k - n, 2
  {
    DropDrop(s, k, n);
    LowerAgrees(s, k + n, next);
    Peel(LowerBytes(s), k, n, front, LowerText(s[k + n..], next));
  }

  lemma LowerOfByte(s: seq<Byte>, inside: bool, next: bool)
    requires Lexical(s, inside) && s != [] && s[0] != BACKSLASH
    requires next == if inside then s[0] != QUOTE else s[0] == QUOTE
    ensures Lexical(s[1..], next) && LowerText(s, inside) == [s[0]] + LowerText(s[1..], next)
  {
  }

  function Canonical(s: seq<Byte>): seq<Byte> {
    LowerBytes(Rewrite(s, Outer))
  }

  lemma CanonicalIsScan(s: seq<Byte>)
    requires Lexical(s, false)
    ensures Lexical(Rewrite(s, Outer), false) && Canonical(s) == LowerText(Rewrite(s, Outer), false)
  {
    RewriteKeeps(s, false);
    var t := Rewrite(s, Outer);
    assert t[0..] == t && LowerBytes(t)[0..] == LowerBytes(t);
    LowerAgrees(t, 0, false);
  }

  /** Canonical bytes are lexically valid and every string in them decodes to what it did before. */
  lemma CanonicalKeepsMeaning(s: seq<Byte>)
    requires Lexical(s, false)
    ensures Lexical(Canonical(s), false) && Meaning(Canonical(s), false) == Meaning(s, false)
  {
    CanonicalIsScan(s);
    RewriteKeeps(s, false);
    LowerKeeps(Rewrite(s, Outer), false);
  }

  // ----- twice is once

  /** Lexically valid, with no raw markup or separator in a string; `lower` also asks for lower-case escapes. */
  predicate Tidy(s: seq<Byte>, inside: bool, lower: bool)
    decreases |s|
  {
    if !inside then s == [] || (s[0] != BACKSLASH && Tidy(s[1..], s[0] == QUOTE, lower))
    else
      && s != []
      && if s[0] == QUOTE then Tidy(s[1..], false, lower)
         else if UnicodeEscape(s) then (lower ==> LowerFourDigits(s) == s[..6]) && Tidy(s[6..], true, lower)
         else if s[0] == BACKSLASH then SimpleEscape(s) && Tidy(s[2..], true, lower)
         else s[0] >= 0x20 && !Markup(s[0]) && !Separator(s) && Tidy(s[1..], true, lower)
  }

  lemma {:induction false} TidyIsLexical(s: seq<Byte>, inside: bool, lower: bool)
    requires Tidy(s, inside, lower)
    ensures Lexical(s, inside)
    decreases |s|
  {
    if s == [] {
    } else if !inside {
      TidyIsLexical(s[1..], s[0] == QUOTE, lower);
    } else if s[0] == QUOTE {
      TidyIsLexical(s[1..], false, lower);
    } else if UnicodeEscape(s) {
      TidyIsLexical(s[6..], true, lower);
    } else if s[0] == BACKSLASH {
      TidyIsLexical(s[2..], true, lower);
    } else {
      TidyIsLexical(s[1..], true, lower);
    }
  }

  /** The first byte written for a string byte is that byte or a backslash. */
  lemma FirstWritten(s: seq<Byte>)
    requires s != []
    ensures Rewrite(s, Inner) != [] && (Rewrite(s, Inner)[0] == s[0] || Rewrite(s, Inner)[0] == BACKSLASH)
  {
  }

  /** The first pass puts no separator together that was not there. */
  lemma SeparatorWasThere(s: seq<Byte>)
    requires s != [] && Separator([s[0]] + Rewrite(s[1..], Inner))
    ensures Separator(s)
  {
    var r := Rewrite(s[1..], Inner);
    assert r[0] == ([s[0]] + r)[1] && r[1] == ([s[0]] + r)[2];
    FirstWritten(s[1..]);
    RewritePlain(s[1..]);
    assert s[1..][1..] == s[2..];
    FirstWritten(s[2..]);
  }

  lemma TidyEscape(x: seq<Byte>, r: seq<Byte>, lower: bool)
    requires |x| == 6 && UnicodeEscape(x) && Tidy(r, true, lower) && (lower ==> LowerFourDigits(x) == x)
    ensures Tidy(x + r, true, lower)
  {
    EscapeInFront(x, r);
    assert (x + r)[..6] == x;
  }

  lemma TidySimple(x: seq<Byte>, r: seq<Byte>, lower: bool)
    requires |x| == 2 && SimpleEscape(x) && Tidy(r, true, lower)
    ensures Tidy(x + r, true, lower)
  {
    SimpleInFront(x, r);
  }

  lemma TidyByte(b: Byte, r: seq<Byte>, lower: bool)
    requires b >= 0x20 && b != QUOTE && b != BACKSLASH && !Markup(b) && !Separator([b] + r) && Tidy(r, true, lower)
    ensures Tidy([b] + r, true, lower)
  {
    ByteInFront(b, r);
  }

  lemma {:induction false} RewriteTidies(s: seq<Byte>, inside: bool)
    requires Lexical(s, inside)
    ensures Tidy(Rewrite(s, ModeFor(inside)), inside, false)
    decreases |s|
  {
    if s == [] {
    } else if !inside {
      RewriteTidies(s[1..], s[0] == QUOTE);
      OuterInFront(s[0], Rewrite(s[1..], ModeFor(s[0] == QUOTE)));
    } else if s[0] == QUOTE {
      RewriteTidies(s[1..], false);
      QuoteInFront(Rewrite(s[1..], Outer));
    } else if UnicodeEscape(s) {
      RewriteTidies(s[6..], true);
      RewriteEscape(s);
      TidyEscape(s[..6], Rewrite(s[6..], Inner), false);
    } else if s[0] == BACKSLASH {
      RewriteTidies(s[2..], true);
      RewriteSimple(s);
      TidySimple(s[..2], Rewrite(s[2..], Inner), false);
    } else if Markup(s[0]) {
      RewriteTidies(s[1..], true);
      MarkupDecodes(s[0]);
      TidyEscape(MarkupEscape(s[0]), Rewrite(s[1..], Inner), false);
    } else if Separator(s) {
      SeparatorMeaning(s);
      RewriteTidies(s[3..], true);
      SeparatorDecodes(s[2]);
      TidyEscape(SeparatorEscape(s[2]), Rewrite(s[3..], Inner), false);
    } else {
      RewriteTidies(s[1..], true);
      RewritePlain(s);
      if Separator(Rewrite(s, Inner)) {
        SeparatorWasThere(s);
      }
      TidyByte(s[0], Rewrite(s[1..], Inner), false);
    }
  }

  lemma FirstLowered(s: seq<Byte>, inside: bool)
    requires Lexical(s, inside) && s != []
    ensures LowerText(s, inside) != [] && LowerText(s, inside)[0] == s[0]
  {
  }

  /** Lowering digits makes no separator of bytes that were none. */
  lemma NoLoweredSeparator(s: seq<Byte>)
    requires Lexical(s, true) && s[0] == 0xE2 && Separator(LowerText(s, true))
    ensures Separator(s)
  {
    var r := LowerText(s[1..], true);
    assert LowerText(s, true) == [s[0]] + r;
    assert r[0] == 0x80 && (r[1] == 0xA8 || r[1] == 0xA9);
    FirstLowered(s[1..], true);
    assert r == [s[1]] + LowerText(s[1..][1..], true);
    FirstLowered(s[1..][1..], true);
    assert s[1..][1..][0] == s[2];
  }

  lemma LoweredTwice(s: seq<Byte>)
    requires UnicodeEscape(s)
    ensures LowerFourDigits(LowerFourDigits(s)) == LowerFourDigits(s)
  {
  }

  lemma {:induction false} LowerTidies(s: seq<Byte>, inside: bool)
    requires Tidy(s, inside, false) && Lexical(s, inside)
    ensures Tidy(LowerText(s, inside), inside, true)
    decreases |s|
  {
    if s == [] {
    } else if !inside {
      LowerTidies(s[1..], s[0] == QUOTE);
      OuterInFront(s[0], LowerText(s[1..], s[0] == QUOTE));
    } else if s[0] == QUOTE {
      LowerTidies(s[1..], false);
      QuoteInFront(LowerText(s[1..], false));
    } else if UnicodeEscape(s) {
      LowerTidies(s[6..], true);
      LowerDecodes(s);
      LoweredTwice(s);
      TidyEscape(LowerFourDigits(s), LowerText(s[6..], true), true);
    } else if s[0] == BACKSLASH {
      LowerTidies(s[2..], true);
      TidySimple(s[..2], LowerText(s[2..], true), true);
    } else {
      LowerTidies(s[1..], true);
      if Separator(LowerText(s, true)) {
        NoLoweredSeparator(s);
      }
      TidyByte(s[0], LowerText(s[1..], true), true);
    }
  }

  /** A tidy text is left alone by the first pass. */
  lemma {:induction false} RewriteLeavesTidy(s: seq<Byte>, inside: bool)
    requires Tidy(s, inside, true)
    ensures Rewrite(s, ModeFor(inside)) == s
    decreases |s|
  {
    if s == [] {
    } else if inside && UnicodeEscape(s) {
      TidyAfter(s, 6);
      RewriteLeavesTidy(s[6..], true);
      RewriteEscape(s);
      SplitAt(s, 6);
    } else if inside && s[0] == BACKSLASH {
      TidyAfter(s, 2);
      RewriteLeavesTidy(s[2..], true);
      RewriteSimple(s);
      SplitAt(s, 2);
    } else {
      RewriteLeavesByte(s, inside);
    }
  }

  lemma TidyAfter(s: seq<Byte>, n: nat)
    requires Tidy(s, true, true) && s[0] == BACKSLASH && n == if UnicodeEscape(s) then 6 else 2
    ensures n <= |s| && Tidy(s[n..], true, true)
  {
  }

  lemma {:induction false} RewriteLeavesByte(s: seq<Byte>, inside: bool)
    requires s != [] && Tidy(s, inside, true) && s[0] != BACKSLASH
    ensures Rewrite(s, ModeFor(inside)) == s
    decreases |s|, 0
  {
    var next := if inside then s[0] != QUOTE else s[0] == QUOTE;
    RewriteLeavesTidy(s[1..], next);
    RewriteCopies(s, ModeFor(inside));
    SplitAt(s, 1);
  }

  /** A tidy text with lower-case escapes is left alone by the second pass. */
  lemma {:induction false} LowerLeavesTidy(s: seq<Byte>, inside: bool)
    requires Tidy(s, inside, true) && Lexical(s, inside)
    ensures LowerText(s, inside) == s
    decreases |s|
  {
    if s == [] {
    } else if inside && UnicodeEscape(s) {
      SplitAt(s, 6);
      LowerLeavesTidy(s[6..], true);
    } else if inside && s[0] == BACKSLASH {
      SplitAt(s, 2);
      LowerLeavesTidy(s[2..], true);
    } else {
      SplitAt(s, 1);
      LowerLeavesTidy(s[1..], if inside then s[0] != QUOTE else s[0] == QUOTE);
    }
  }

  /** Applying the canonical rewrite a second time changes nothing. */
  lemma CanonicalIsIdempotent(s: seq<Byte>)
    requires Lexical(s, false)
    ensures Canonical(Canonical(s)) == Canonical(s)
  {
    CanonicalIsScan(s);
    var t := Rewrite(s, Outer);
    RewriteTidies(s, false);
    LowerTidies(t, false);
    TidyIsLexical(Canonical(s), false, true);
    RewriteLeavesTidy(Canonical(s), false);
    LowerLeavesTidy(Canonical(s), false);
    CanonicalIsScan(Canonical(s));
  }
}
