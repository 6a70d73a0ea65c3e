/** Decimal text: digits of a number, and the number of a digit text. */
module Decimal {
  import opened Wrappers

  predicate IsDigit(c: char) { '0' <= c <= '9' }

  predicate AllDigits(s: string) {
    forall c <- s :: IsDigit(c)
  }

  function DigitChar(d: nat): (c: char)
    requires d < 10
    ensures IsDigit(c) && c as int - '0' as int == d
  {
    (d + '0' as int) as char
  }

  function Value(s: string): (n: nat)
    requires AllDigits(s)
  {
    if s == "" then 0
    else
      assert IsDigit(s[|s| - 1]);
      10 * Value(s[..|s| - 1]) + (s[|s| - 1] as int - '0' as int)
  }

  function Digits(n: nat): (s: string)
    ensures s != "" && AllDigits(s)
  {
    if n < 10 then [DigitChar(n)] else Digits(n / 10) + [DigitChar(n % 10)]
  }

  lemma {:induction false} ValueOfDigits(n: nat)
    ensures Value(Digits(n)) == n
  {
    if n < 10 {
      assert [DigitChar(n)][..0] == "";
    } else {
      ValueOfDigits(n / 10);
      var s := Digits(n / 10) + [DigitChar(n % 10)];
      assert s[..|s| - 1] == Digits(n / 10);
    }
  }

  /** Different numbers have different digits. */
  lemma DigitsInjective(a: nat, b: nat)
    requires Digits(a) == Digits(b)
    ensures a == b
  {
    ValueOfDigits(a);
    ValueOfDigits(b);
  }

  /** The text of a signed integer. */
  function Show(n: int): string {
    if n < 0 then "-" + Digits(-n) else Digits(n)
  }

  lemma ShowInjective(a: int, b: int)
    requires Show(a) == Show(b)
    ensures a == b
  {
    var x, y := if a < 0 then -a else a, if b < 0 then -b else b;
    assert IsDigit(Digits(x)[0]) && IsDigit(Digits(y)[0]);
    if a < 0 && b < 0 {
      assert Show(a)[1..] == Digits(x) && Show(b)[1..] == Digits(y);
    }
    DigitsInjective(x, y);
  }

  const MINIMUM_INTEGER := -0x8000_0000_0000_0000
  const MAXIMUM_INTEGER := 0x7FFF_FFFF_FFFF_FFFF

  function Unsigned(s: string): string {
    if s != "" && (s[0] == '-' || s[0] == '+') then s[1..] else s
  }

  /** Reading a signed 64-bit integer in base ten; None where the library reports an error. */
  function ParseInt(s: string): Option<int> {
    var body := Unsigned(s);
    if body == "" || !AllDigits(body) then None
    else
      var value: int := if s[0] == '-' then 0 - Value(body) else Value(body);
      if MINIMUM_INTEGER <= value <= MAXIMUM_INTEGER then Some(value) else None
  }

  lemma UnsignedOfShow(n: int)
    ensures Unsigned(Show(n)) == Digits(if n < 0 then -n else n) && (Show(n)[0] == '-' <==> n < 0)
  {
    assert IsDigit(Digits(if n < 0 then -n else n)[0]);
  }

  lemma ParseIntOfShow(n: int)
    requires MINIMUM_INTEGER <= n <= MAXIMUM_INTEGER
    ensures ParseInt(Show(n)) == Some(n)
  {
    UnsignedOfShow(n);
    ValueOfDigits(if n < 0 then -n else n);
  }
}
