/** UTF-8 validity (section 4 of RFC 3629), character boundaries, and the UTF-16 view of a text. */
module Utf8 {
  import opened Concatenation

  type Byte = b: nat | b < 0x100

  predicate Tail(b: Byte) { 0x80 <= b <= 0xBF }

  predicate TwoBytes(s: seq<Byte>) {
    |s| >= 2 && 0xC2 <= s[0] <= 0xDF && Tail(s[1])
  }

  predicate ThreeBytes(s: seq<Byte>) {
    && |s| >= 3 && 0xE0 <= s[0] <= 0xEF && Tail(s[1]) && Tail(s[2])
    && (s[0] == 0xE0 ==> 0xA0 <= s[1]) && (s[0] == 0xED ==> s[1] <= 0x9F)
  }

  predicate FourBytes(s: seq<Byte>) {
    && |s| >= 4 && 0xF0 <= s[0] <= 0xF4 && Tail(s[1]) && Tail(s[2]) && Tail(s[3])
    && (s[0] == 0xF0 ==> 0x90 <= s[1]) && (s[0] == 0xF4 ==> s[1] <= 0x8F)
  }

  /** The length of the character at the front, or 0 when there is none. */
  function CharLength(s: seq<Byte>): (n: nat)
    ensures n <= |s| && n <= 4
  {
    if s == [] then 0
    else if s[0] <= 0x7F then 1
    else if TwoBytes(s) then 2
    else if ThreeBytes(s) then 3
    else if FourBytes(s) then 4
    else 0
  }

  predicate Valid(s: seq<Byte>) {
    s == [] || (CharLength(s) > 0 && Valid(s[CharLength(s)..]))
  }

  /** `k` bytes of `s` are whole characters. */
  predicate Boundary(s: seq<Byte>, k: nat) {
    k == 0 || (0 < CharLength(s) <= k && Boundary(s[CharLength(s)..], k - CharLength(s)))
  }

  lemma CharOfPrefix(s: seq<Byte>, k: nat)
    requires 0 < k <= |s| && CharLength(s) > 0
    ensures CharLength(s[..k]) == if CharLength(s) <= k then CharLength(s) else 0
  {
    assert s[..k][0] == s[0];
    assert forall i | 0 <= i < k :: s[..k][i] == s[i];
  }

  /** Cutting a valid text at `k` leaves valid parts exactly at a character boundary. */
  lemma {:induction false} CutsAtBoundaries(s: seq<Byte>, k: nat)
    requires Valid(s) && k <= |s|
    ensures Valid(s[..k]) <==> Boundary(s, k)
    ensures Boundary(s, k) ==> Valid(s[k..])
    decreases |s|
  {
    if k == 0 {
      assert s[..0] == [] && s[0..] == s;
    } else {
      var n := CharLength(s);
      CharOfPrefix(s, k);
      if n <= k {
        CutsAtBoundaries(s[n..], k - n);
        assert s[..k][n..] == s[n..][..k - n];
        assert s[n..][k - n..] == s[k..];
      }
    }
  }

  /** Among any four neighbouring positions of a valid text one is a boundary. */
  lemma {:induction false} BoundaryIsNear(s: seq<Byte>, k: nat) returns (near: nat)
    requires Valid(s) && k <= |s|
    ensures near <= k && k - near <= 3 && Boundary(s, near)
    decreases |s|
  {
    if k == 0 || k < CharLength(s) {
      near := 0;
    } else {
      var n := CharLength(s);
      var rest := BoundaryIsNear(s[n..], k - n);
      near := rest + n;
    }
  }

  lemma {:induction false} ValidConcat(a: seq<Byte>, b: seq<Byte>)
    requires Valid(a) && Valid(b)
    ensures Valid(a + b) && Boundary(a + b, |a|)
    decreases |a|
  {
    if a == [] {
      assert a + b == b;
    } else {
      var n := CharLength(a);
      CharOfConcat(a, b);
      ConcatDrop(a, b, n);
      ValidConcat(a[n..], b);
    }
  }

  lemma CharOfConcat(a: seq<Byte>, b: seq<Byte>)
    requires CharLength(a) > 0
    ensures CharLength(a + b) == CharLength(a)
  {
    assert forall i | 0 <= i < |a| :: (a + b)[i] == a[i];
  }

  lemma AfterCharacter(s: seq<Byte>, k: nat, n: nat, rest: seq<Byte>, left: nat)
    requires n == CharLength(s) && 0 < n <= k && rest == s[n..] && left == k - n
    ensures Boundary(s, k) <==> Boundary(rest, left)
  {
  }

  lemma {:induction false} ShiftTo(s: seq<Byte>, k: nat, m: nat, end: nat, t: seq<Byte>)
    requires k <= |s| && end == k + m && Boundary(s, k) && t == s[k..]
    ensures Boundary(s, end) <==> Boundary(t, m)
    decreases k
  {
    if k == 0 {
      assert t == s;
    } else {
      var n := CharLength(s);
      var rest := s[n..];
      DropDrop(s, n, k - n);
      AfterCharacter(s, k, n, rest, k - n);
      AfterCharacter(s, end, n, rest, end - n);
      ShiftTo(rest, k - n, m, end - n, t);
    }
  }

  lemma BoundaryShifts(s: seq<Byte>, k: nat, m: nat)
    requires k + m <= |s| && Boundary(s, k)
    ensures Boundary(s, k + m) <==> Boundary(s[k..], m)
  {
    ShiftTo(s, k, m, k + m, s[k..]);
  }

  // ----- UTF-16

  type Unit = u: nat | u < 0x1_0000

  predicate High(u: Unit) { 0xD800 <= u <= 0xDBFF }

  predicate Low(u: Unit) { 0xDC00 <= u <= 0xDFFF }

  /** The six bits of a continuation byte. */
  function Bits(b: Byte): (n: nat)
    requires Tail(b)
    ensures n < 64 && b == 0x80 + n
  {
    b as int - 0x80
  }

  /** The code point of the character at the front. */
  function CodePoint(s: seq<Byte>): (c: nat)
    requires CharLength(s) > 0
    ensures CharLength(s) <= 3 ==> c < 0x1_0000 && !(0xD800 <= c <= 0xDFFF)
    ensures CharLength(s) == 4 ==> 0x1_0000 <= c < 0x11_0000
  {
    match CharLength(s)
    case 1 => s[0]
    case 2 => (s[0] as int - 0xC0) * 64 + Bits(s[1])
    case 3 => (s[0] as int - 0xE0) * 4096 + Bits(s[1]) * 64 + Bits(s[2])
    case _ => (s[0] as int - 0xF0) * 262144 + Bits(s[1]) * 4096 + Bits(s[2]) * 64 + Bits(s[3])
  }

  function UnitsOf(c: nat): (u: seq<Unit>)
    requires c < 0x11_0000
    ensures |u| == if c < 0x1_0000 then 1 else 2
  {
    if c < 0x1_0000 then [c]
    else [0xD800 + (c - 0x1_0000) / 1024, 0xDC00 + (c - 0x1_0000) % 1024]
  }

  /** The string a valid UTF-8 text decodes to. */
  function Units(s: seq<Byte>): seq<Unit>
    requires Valid(s)
  {
    if s == [] then [] else UnitsOf(CodePoint(s)) + Units(s[CharLength(s)..])
  }

  function BytesOf(c: nat): seq<Byte>
    requires c < 0x11_0000
  {
    if c < 0x80 then [c]
    else if c < 0x800 then [0xC0 + c / 64, 0x80 + c % 64]
    else if c < 0x1_0000 then [0xE0 + c / 4096, 0x80 + c / 64 % 64, 0x80 + c % 64]
    else [0xF0 + c / 262144, 0x80 + c / 4096 % 64, 0x80 + c / 64 % 64, 0x80 + c % 64]
  }

  const REPLACEMENT := 0xFFFD

  /** Encoding a string as UTF-8; an unpaired surrogate becomes the replacement character. */
  function GetBytes(u: seq<Unit>): seq<Byte> {
    if u == [] then []
    else if High(u[0]) && |u| > 1 && Low(u[1]) then
      BytesOf(0x1_0000 + (u[0] as int - 0xD800) * 1024 + (u[1] as int - 0xDC00)) + GetBytes(u[2..])
    else BytesOf(if 0xD800 <= u[0] <= 0xDFFF then REPLACEMENT else u[0]) + GetBytes(u[1..])
  }

  lemma BytesOfCodePoint(s: seq<Byte>)
    requires CharLength(s) > 0
    ensures BytesOf(CodePoint(s)) == s[..CharLength(s)]
  {
    match CharLength(s)
    case 1 =>
    case 2 =>
      Digits64(s[0] as int - 0xC0, Bits(s[1]));
    case 3 =>
      ThreeDigits(s[0] as int - 0xE0, Bits(s[1]), Bits(s[2]));
    case _ =>
      FourDigits(s[0] as int - 0xF0, Bits(s[1]), Bits(s[2]), Bits(s[3]));
  }

  lemma Digits64(a: nat, b: nat)
    requires b < 64
    ensures (a * 64 + b) / 64 == a && (a * 64 + b) % 64 == b
  {
  }

  lemma ThreeDigits(a: nat, b: nat, c: nat)
    requires b < 64 && c < 64
    ensures var n := a * 4096 + b * 64 + c; n / 4096 == a && n / 64 % 64 == b && n % 64 == c
  {
    Digits64(a * 64 + b, c);
    Digits64(a, b);
  }

  lemma FourDigits(a: nat, b: nat, c: nat, d: nat)
    requires b < 64 && c < 64 && d < 64
    ensures var n := a * 262144 + b * 4096 + c * 64 + d;
            n / 262144 == a && n / 4096 % 64 == b && n / 64 % 64 == c && n % 64 == d
  {
    Digits64(a * 4096 + b * 64 + c, d);
    Digits64(a * 64 + b, c);
    Digits64(a, b);
  }

  lemma GetBytesFirst(c: nat, rest: seq<Unit>)
    requires c < 0x11_0000 && !(0xD800 <= c <= 0xDFFF)
    ensures GetBytes(UnitsOf(c) + rest) == BytesOf(c) + GetBytes(rest)
  {
    var u := UnitsOf(c) + rest;
    if c < 0x1_0000 {
      assert u[1..] == rest;
    } else {
      assert u[2..] == rest;
    }
  }

  lemma Rejoin<T>(s: seq<T>, n: nat, rest: seq<T>)
    requires n <= |s|
    ensures s[..n] + (s[n..] + rest) == s + rest
  {
  }

  lemma UnitsFirst(s: seq<Byte>, rest: seq<Unit>)
    requires Valid(s) && s != []
    ensures Units(s) + rest == UnitsOf(CodePoint(s)) + (Units(s[CharLength(s)..]) + rest)
    ensures |Units(s)| == |UnitsOf(CodePoint(s))| + |Units(s[CharLength(s)..])|
  {
    Assoc(UnitsOf(CodePoint(s)), Units(s[CharLength(s)..]), rest);
  }

  /** Encoding the decoded string gives the bytes back, and a string is never longer than its bytes. */
  lemma {:induction false} GetBytesOfUnits(s: seq<Byte>, rest: seq<Unit>)
    requires Valid(s)
    ensures GetBytes(Units(s) + rest) == s + GetBytes(rest)
    ensures |Units(s)| <= |s| && (s != [] ==> Units(s) != [])
    decreases |s|
  {
    if s == [] {
      assert Units(s) + rest == rest;
    } else {
      var n := CharLength(s);
      GetBytesOfUnits(s[n..], rest);
      UnitsFirst(s, rest);
      GetBytesFirst(CodePoint(s), Units(s[n..]) + rest);
      BytesOfCodePoint(s);
      Rejoin(s, n, GetBytes(rest));
    }
  }

  // ----- which strings share their bytes

  predicate Surrogate(u: Unit) { 0xD800 <= u <= 0xDFFF }

  predicate StartsPair(u: seq<Unit>) {
    |u| > 1 && High(u[0]) && Low(u[1])
  }

  /** No surrogate stands alone. */
  predicate Paired(u: seq<Unit>) {
    u == [] || (if StartsPair(u) then Paired(u[2..]) else !Surrogate(u[0]) && Paired(u[1..]))
  }

  /** The string with every surrogate that stands alone replaced. */
  function Repair(u: seq<Unit>): (r: seq<Unit>)
    ensures |r| == |u|
  {
    if u == [] then []
    else if StartsPair(u) then u[..2] + Repair(u[2..])
    else [if Surrogate(u[0]) then REPLACEMENT else u[0]] + Repair(u[1..])
  }

  lemma {:induction false} RepairIsPaired(u: seq<Unit>)
    ensures Paired(Repair(u)) && GetBytes(Repair(u)) == GetBytes(u)
    decreases |u|
  {
    if u != [] {
      var r := Repair(u);
      if StartsPair(u) {
        RepairIsPaired(u[2..]);
        assert r[2..] == Repair(u[2..]);
      } else {
        RepairIsPaired(u[1..]);
        assert r[1..] == Repair(u[1..]);
      }
    }
  }

  lemma {:induction false} PairedNeedsNoRepair(u: seq<Unit>)
    ensures Paired(u) <==> Repair(u) == u
    decreases |u|
  {
    if u != [] {
      var n := if StartsPair(u) then 2 else 1;
      PairedNeedsNoRepair(u[n..]);
      assert Repair(u)[n..] == Repair(u[n..]);
      if Repair(u[n..]) == u[n..] && (n == 1 ==> !Surrogate(u[0])) {
        assert u == u[..n] + u[n..];
      }
    }
  }

  /** Repair works on each part of a text that is not cut inside a pair. */
  lemma {:induction false} RepairConcat(a: seq<Unit>, b: seq<Unit>)
    requires a == [] || b == [] || !High(a[|a| - 1]) || !Low(b[0])
    ensures Repair(a + b) == Repair(a) + Repair(b)
    decreases |a|
  {
    if a == [] {
      assert a + b == b;
    } else if b == [] {
      assert a + b == a;
    } else {
      var n := if StartsPair(a) then 2 else 1;
      assert (a + b)[n..] == a[n..] + b;
      assert StartsPair(a + b) == StartsPair(a) && (a + b)[..n] == a[..n];
      RepairConcat(a[n..], b);
    }
  }

  /** The bytes of a code point are read back from the front of a text. */
  lemma FirstOfBytes(c: nat, rest: seq<Byte>)
    requires c < 0x11_0000 && !(0xD800 <= c <= 0xDFFF)
    ensures var s := BytesOf(c) + rest;
            CharLength(s) == |BytesOf(c)| && CodePoint(s) == c && s[CharLength(s)..] == rest
  {
    var s := BytesOf(c) + rest;
    if c < 0x80 {
      assert s[0] == c;
    } else if c < 0x800 {
      TwoByteFirst(c, s);
    } else if c < 0x1_0000 {
      ThreeByteFirst(c, s);
    } else {
      FourByteFirst(c, s);
    }
  }

  lemma TwoByteFirst(c: nat, s: seq<Byte>)
    requires 0x80 <= c < 0x800 && |s| >= 2 && s[0] == 0xC0 + c / 64 && s[1] == 0x80 + c % 64
    ensures CharLength(s) == 2 && CodePoint(s) == c
  {
  }

  lemma ThreeByteFirst(c: nat, s: seq<Byte>)
    requires 0x800 <= c < 0x1_0000 && !(0xD800 <= c <= 0xDFFF) && |s| >= 3
    requires s[0] == 0xE0 + c / 4096 && s[1] == 0x80 + c / 64 % 64 && s[2] == 0x80 + c % 64
    ensures CharLength(s) == 3 && CodePoint(s) == c
  {
    assert c == c / 4096 * 4096 + c / 64 % 64 * 64 + c % 64;
  }

  lemma FourByteFirst(c: nat, s: seq<Byte>)
    requires 0x1_0000 <= c < 0x11_0000 && |s| >= 4
    requires s[0] == 0xF0 + c / 262144 && s[1] == 0x80 + c / 4096 % 64
    requires s[2] == 0x80 + c / 64 % 64 && s[3] == 0x80 + c % 64
    ensures CharLength(s) == 4 && CodePoint(s) == c
  {
    var q := c / 64;
    ByHundreds(q);
    assert c / 4096 == q / 64 && c / 262144 == q / 4096;
  }

  lemma ByHundreds(q: nat)
    ensures q == q / 4096 * 4096 + q / 64 % 64 * 64 + q % 64
  {
  }

  lemma UnitsOfPair(u: seq<Unit>)
    requires StartsPair(u)
    ensures var c := 0x1_0000 + (u[0] as int - 0xD800) * 1024 + (u[1] as int - 0xDC00);
            0x1_0000 <= c < 0x11_0000 && UnitsOf(c) == u[..2]
  {
  }

  /** A string without lone surrogates is decoded from its own bytes. */
  lemma {:induction false} UnitsOfGetBytes(u: seq<Unit>)
    requires Paired(u)
    ensures Valid(GetBytes(u)) && Units(GetBytes(u)) == u
    decreases |u|
  {
    if u != [] {
      var n := if StartsPair(u) then 2 else 1;
      UnitsOfGetBytes(u[n..]);
      if n == 2 {
        UnitsOfPair(u);
      }
      var c := if n == 2 then 0x1_0000 + (u[0] as int - 0xD800) * 1024 + (u[1] as int - 0xDC00) else u[0];
      FirstOfBytes(c, GetBytes(u[n..]));
      assert GetBytes(u) == BytesOf(c) + GetBytes(u[n..]) && UnitsOf(c) == u[..n];
    }
  }

  /** Two strings have the same bytes exactly when they agree up to lone surrogates. */
  lemma GetBytesExactly(u: seq<Unit>, v: seq<Unit>)
    ensures GetBytes(u) == GetBytes(v) <==> Repair(u) == Repair(v)
  {
    RepairIsPaired(u);
    RepairIsPaired(v);
    UnitsOfGetBytes(Repair(u));
    UnitsOfGetBytes(Repair(v));
  }
}
