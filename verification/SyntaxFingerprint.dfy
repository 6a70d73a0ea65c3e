/** The text encoding of a syntax tree under the Kusto fingerprint; texts are sequences of UTF-16 units. */
module SyntaxFingerprint {
  import opened Concatenation
  import opened Decimal
  import opened Delimited
  import opened Utf8
  import opened Wrappers

  type Text = seq<Unit>

  /** The characters that are written as one unit of the same number. */
  type Ascii = c: char | c < '\U{80}'

  function Mark(c: Ascii): Text {
    [c as int]
  }

  predicate AllAscii(s: string) {
    forall i | 0 <= i < |s| :: s[i] < '\U{80}'
  }

  function AsciiText(s: string): (t: Text)
    requires AllAscii(s)
    ensures |t| == |s| && forall i | 0 <= i < |s| :: t[i] == s[i] as int
  {
    if s == "" then [] else Mark(s[0]) + AsciiText(s[1..])
  }

  lemma AsciiInjective(a: string, b: string)
    requires AllAscii(a) && AllAscii(b) && AsciiText(a) == AsciiText(b)
    ensures a == b
  {
    assert |a| == |AsciiText(a)| == |b|;
    forall i | 0 <= i < |a| ensures a[i] == b[i] {
      assert a[i] as int == AsciiText(a)[i] == AsciiText(b)[i] == b[i] as int;
    }
  }

  lemma AsciiHasNo(s: string, d: Ascii)
    requires AllAscii(s) && d !in s
    ensures d as int !in AsciiText(s)
  {
  }

  function DigitsText(n: nat): Text {
    DigitsAscii(n);
    AsciiText(Digits(n))
  }

  lemma DigitsAscii(n: nat)
    ensures AllAscii(Digits(n)) && forall d: char | !IsDigit(d) :: d !in Digits(n)
  {
    assert AllDigits(Digits(n)) && forall i | 0 <= i < |Digits(n)| :: Digits(n)[i] in Digits(n);
  }

  function ShowText(n: int): Text {
    ShowAscii(n);
    AsciiText(Show(n))
  }

  lemma ShowAscii(n: int)
    ensures AllAscii(Show(n)) && forall d: char | !IsDigit(d) && d != '-' :: d !in Show(n)
  {
    DigitsAscii(if n < 0 then -n else n);
  }

  /** A child of None is one the tree leaves out. */
  datatype Tree = Token(kind: int, value: Text) | Node(kind: int, children: seq<Option<Tree>>)

  function Encode(t: Tree): Text
    decreases t, 0
  {
    match t
    case Token(kind, value) =>
      Mark('T') + ShowText(kind) + Mark(':') + DigitsText(|value|) + Mark(':') + value + Mark(';')
    case Node(kind, children) => Mark('N') + ShowText(kind) + Mark('[') + EncodeAll(children) + Mark(']')
  }

  function EncodeChild(c: Option<Tree>): Text
    decreases c, 1
  {
    if c.Some? then Encode(c.value) else Mark('-')
  }

  function EncodeAll(cs: seq<Option<Tree>>): Text
    decreases cs, 0
  {
    if cs == [] then [] else EncodeChild(cs[0]) + EncodeAll(cs[1..])
  }

  /** The recursive writer with its shared builder. */
  class Builder {
    var text: Text

    constructor ()
      ensures text == []
    {
      text := [];
    }

    method Append(t: Tree)
      modifies this
      ensures text == old(text) + Encode(t)
      decreases t, 0
    {
      match t
      case Token(kind, value) =>
        text := text + (Mark('T') + ShowText(kind) + Mark(':') + DigitsText(|value|) + Mark(':') + value + Mark(';'));
      case Node(kind, children) =>
        text := text + (Mark('N') + ShowText(kind) + Mark('['));
        AppendChildren(children);
        text := text + Mark(']');
        Regroup(old(text), Mark('N') + ShowText(kind) + Mark('['), EncodeAll(children), Mark(']'));
    }

    /** The child loop. */
    method AppendChildren(children: seq<Option<Tree>>)
      modifies this
      ensures text == old(text) + EncodeAll(children)
      decreases children, 0
    {
      assert children[0..] == children && children[|children|..] == [];
      for index := 0 to |children|
        invariant text + EncodeAll(children[index..]) == old(text) + EncodeAll(children)
      {
        EncodeFrom(children, index);
        Assoc(text, EncodeChild(children[index]), EncodeAll(children[index + 1..]));
        AppendChild(children[index]);
      }
      assert text + EncodeAll([]) == text;
    }

    method AppendChild(child: Option<Tree>)
      modifies this
      ensures text == old(text) + EncodeChild(child)
      decreases child, 1
    {
      if child.Some? {
        Append(child.value);
      } else {
        text := text + Mark('-');
      }
    }
  }

  lemma EncodeFrom(cs: seq<Option<Tree>>, i: nat)
    requires i < |cs|
    ensures EncodeAll(cs[i..]) == EncodeChild(cs[i]) + EncodeAll(cs[i + 1..])
  {
    assert cs[i..][1..] == cs[i + 1..];
  }

  lemma Regroup(a: Text, b: Text, c: Text, d: Text)
    ensures a + b + c + d == a + (b + c + d)
  {
  }

  // ----- unique decoding

  /** Two texts that start with a number and the same delimiter agree on the number and the rest. */
  lemma NumberFirst(m: int, n: int, d: Ascii, x: Text, y: Text)
    requires !IsDigit(d) && d != '-' && ShowText(m) + Mark(d) + x == ShowText(n) + Mark(d) + y
    ensures m == n && x == y
  {
    ShowAscii(m);
    ShowAscii(n);
    AsciiHasNo(Show(m), d);
    AsciiHasNo(Show(n), d);
    FirstFieldUnique(d as int, ShowText(m), x, ShowText(n), y);
    AsciiInjective(Show(m), Show(n));
    ShowInjective(m, n);
  }

  lemma LengthFirst(m: nat, n: nat, d: Ascii, x: Text, y: Text)
    requires !IsDigit(d) && DigitsText(m) + Mark(d) + x == DigitsText(n) + Mark(d) + y
    ensures m == n && x == y
  {
    DigitsAscii(m);
    DigitsAscii(n);
    AsciiHasNo(Digits(m), d);
    AsciiHasNo(Digits(n), d);
    FirstFieldUnique(d as int, DigitsText(m), x, DigitsText(n), y);
    AsciiInjective(Digits(m), Digits(n));
    DigitsInjective(m, n);
  }

  lemma DropFirst(c: Ascii, x: Text, y: Text)
    requires Mark(c) + x == Mark(c) + y
    ensures x == y
  {
    assert (Mark(c) + x)[1..] == x && (Mark(c) + y)[1..] == y;
  }

  /** A value of known length, delimiters and all, is read back from the front. */
  lemma ValueFirst(v: Text, w: Text, x: Text, y: Text)
    requires |v| == |w| && v + (Mark(';') + x) == w + (Mark(';') + y)
    ensures v == w && x == y
  {
    assert (v + (Mark(';') + x))[..|v|] == v && (w + (Mark(';') + y))[..|w|] == w;
    assert (v + (Mark(';') + x))[|v|..] == Mark(';') + x && (w + (Mark(';') + y))[|w|..] == Mark(';') + y;
    DropFirst(';', x, y);
  }

  lemma TokenShape(t: Tree, x: Text)
    requires t.Token?
    ensures var rest := DigitsText(|t.value|) + Mark(':') + (t.value + (Mark(';') + x));
            Encode(t) + x == Mark('T') + (ShowText(t.kind) + Mark(':') + rest)
  {
    RegroupToken(Mark('T'), ShowText(t.kind), Mark(':'), DigitsText(|t.value|), t.value, Mark(';'), x);
  }

  lemma RegroupToken(a: Text, b: Text, c: Text, d: Text, v: Text, e: Text, x: Text)
    ensures a + b + c + d + c + v + e + x == a + (b + c + (d + c + (v + (e + x))))
  {
    Assoc(a + b + c + d + c + v, e, x);
    Assoc(a + b + c + d + c, v, e + x);
    Assoc(a + b + c + d, c, v + (e + x));
    Assoc(a + b + c, d, c + (v + (e + x)));
    Assoc(d, c, v + (e + x));
    Assoc(a + b, c, d + c + (v + (e + x)));
    Assoc(a, b, c + (d + c + (v + (e + x))));
    Assoc(b, c, d + c + (v + (e + x)));
  }

  lemma NodeShape(t: Tree, x: Text)
    requires t.Node?
    ensures Encode(t) + x == Mark('N') + (ShowText(t.kind) + Mark('[') + (EncodeAll(t.children) + (Mark(']') + x)))
  {
  }

  lemma TokensDiffer(a: Tree, b: Tree, x: Text, y: Text)
    requires a.Token? && b.Token? && Encode(a) + x == Encode(b) + y
    ensures a == b && x == y
  {
    TokenShape(a, x);
    TokenShape(b, y);
    var ra := DigitsText(|a.value|) + Mark(':') + (a.value + (Mark(';') + x));
    var rb := DigitsText(|b.value|) + Mark(':') + (b.value + (Mark(';') + y));
    DropFirst('T', ShowText(a.kind) + Mark(':') + ra, ShowText(b.kind) + Mark(':') + rb);
    NumberFirst(a.kind, b.kind, ':', ra, rb);
    LengthFirst(|a.value|, |b.value|, ':', a.value + (Mark(';') + x), b.value + (Mark(';') + y));
    ValueFirst(a.value, b.value, x, y);
  }

  /** The first character tells a token, a node, a missing child and the end of a list apart. */
  lemma FirstCharacter(t: Tree, x: Text)
    ensures Encode(t) + x != [] && (Encode(t) + x)[0] == (if t.Token? then 'T' else 'N') as int
  {
  }

  /** No encoding is a prefix of another: a tree and what follows it can be read back in one way only. */
  lemma {:induction false} EncodingIsPrefixFree(a: Tree, b: Tree, x: Text, y: Text)
    requires Encode(a) + x == Encode(b) + y
    ensures a == b && x == y
    decreases a, 0
  {
    FirstCharacter(a, x);
    FirstCharacter(b, y);
    if a.Token? {
      TokensDiffer(a, b, x, y);
    } else {
      NodesDiffer(a, b, x, y);
    }
  }

  lemma {:induction false} NodesDiffer(a: Tree, b: Tree, x: Text, y: Text)
    requires a.Node? && b.Node? && Encode(a) + x == Encode(b) + y
    ensures a == b && x == y
    decreases a.children, 1
  {
    NodeShape(a, x);
    NodeShape(b, y);
    var ra, rb := EncodeAll(a.children) + (Mark(']') + x), EncodeAll(b.children) + (Mark(']') + y);
    DropFirst('N', ShowText(a.kind) + Mark('[') + ra, ShowText(b.kind) + Mark('[') + rb);
    NumberFirst(a.kind, b.kind, '[', ra, rb);
    ListsDiffer(a.children, b.children, x, y);
  }

  lemma {:induction false} ListsDiffer(cs: seq<Option<Tree>>, ds: seq<Option<Tree>>, x: Text, y: Text)
    requires EncodeAll(cs) + (Mark(']') + x) == EncodeAll(ds) + (Mark(']') + y)
    ensures cs == ds && x == y
    decreases cs, 0
  {
    ListShape(cs, Mark(']') + x);
    ListShape(ds, Mark(']') + y);
    if cs == [] || ds == [] {
      assert cs == [] && ds == [];
      DropFirst(']', x, y);
    } else {
      var rx, ry := EncodeAll(cs[1..]) + (Mark(']') + x), EncodeAll(ds[1..]) + (Mark(']') + y);
      ChildrenDiffer(cs[0], ds[0], rx, ry);
      ListsDiffer(cs[1..], ds[1..], x, y);
      assert cs == [cs[0]] + cs[1..] && ds == [ds[0]] + ds[1..];
    }
  }

  lemma {:induction false} ChildrenDiffer(c: Option<Tree>, d: Option<Tree>, x: Text, y: Text)
    requires EncodeChild(c) + x == EncodeChild(d) + y
    ensures c == d && x == y
    decreases c, 1
  {
    ChildShape(c, x);
    ChildShape(d, y);
    if c.None? {
      DropFirst('-', x, y);
    } else {
      EncodingIsPrefixFree(c.value, d.value, x, y);
    }
  }

  function FirstOf(c: Option<Tree>): Ascii {
    if c.None? then '-' else if c.value.Token? then 'T' else 'N'
  }

  lemma ChildShape(c: Option<Tree>, x: Text)
    ensures EncodeChild(c) + x != [] && (EncodeChild(c) + x)[0] == FirstOf(c) as int
  {
    if c.Some? {
      FirstCharacter(c.value, x);
    }
  }

  /** How the text of a list starts. */
  lemma ListShape(cs: seq<Option<Tree>>, x: Text)
    requires x != [] && x[0] == ']' as int
    ensures EncodeAll(cs) + x != [] && (EncodeAll(cs) + x)[0] == (if cs == [] then ']' else FirstOf(cs[0])) as int
    ensures EncodeAll(cs) + x == if cs == [] then x else EncodeChild(cs[0]) + (EncodeAll(cs[1..]) + x)
  {
    if cs == [] {
      assert [] + x == x;
    } else {
      Assoc(EncodeChild(cs[0]), EncodeAll(cs[1..]), x);
      ChildShape(cs[0], EncodeAll(cs[1..]) + x);
    }
  }

  /** Two trees with the same encoded text are the same tree, whatever their token values contain. */
  lemma EncodingIsInjective(a: Tree, b: Tree)
    requires Encode(a) == Encode(b)
    ensures a == b
  {
    assert Encode(a) + [] == Encode(b) + [];
    EncodingIsPrefixFree(a, b, [], []);
  }

  /** The text of a node with a token and a missing child, written out. */
  lemma EncodingSample()
    ensures Encode(Node(7, [Some(Token(5, [0x61, 0x3B])), None]))
         == [0x4E, 0x37, 0x5B, 0x54, 0x35, 0x3A, 0x32, 0x3A, 0x61, 0x3B, 0x3B, 0x2D, 0x5D]
  {
    var token := Token(5, [0x61, 0x3B]);
    OneDigit(7);
    OneDigit(5);
    OneDigit(2);
    var children := [Some(token), None];
    assert children[1..][1..] == [];
    assert EncodeAll(children[1..]) == Mark('-') + EncodeAll([]);
    assert EncodeAll(children) == Encode(token) + EncodeAll(children[1..]);
  }

  lemma OneDigit(n: nat)
    requires n < 10
    ensures ShowText(n) == DigitsText(n) == [0x30 + n]
  {
    assert Digits(n) == [('0' as int + n) as char];
  }

  // ----- the bytes under the digest

  /** The tree with every surrogate that stands alone in a token value replaced. */
  function RepairTree(t: Tree): Tree
    decreases t, 0
  {
    match t
    case Token(kind, value) => Token(kind, Repair(value))
    case Node(kind, children) => Node(kind, RepairAll(children))
  }

  function RepairChild(c: Option<Tree>): Option<Tree>
    decreases c, 1
  {
    if c.Some? then Some(RepairTree(c.value)) else None
  }

  function RepairAll(cs: seq<Option<Tree>>): seq<Option<Tree>>
    decreases cs, 0
  {
    if cs == [] then [] else [RepairChild(cs[0])] + RepairAll(cs[1..])
  }

  predicate Plain(t: Text) {
    forall i | 0 <= i < |t| :: t[i] < 0x80
  }

  lemma {:induction false} PlainKept(t: Text)
    requires Plain(t)
    ensures Repair(t) == t
  {
    if t != [] {
      PlainKept(t[1..]);
      assert t == [t[0]] + t[1..];
    }
  }

  lemma PlainBefore(a: Text, b: Text)
    requires Plain(a)
    ensures Repair(a + b) == a + Repair(b)
  {
    PlainKept(a);
    RepairConcat(a, b);
  }

  lemma PlainAfter(a: Text, b: Text)
    requires Plain(b)
    ensures Repair(a + b) == Repair(a) + b
  {
    PlainKept(b);
    RepairConcat(a, b);
  }

  lemma NumbersArePlain(n: int, m: nat)
    ensures Plain(ShowText(n)) && Plain(DigitsText(m))
  {
    ShowAscii(n);
    DigitsAscii(m);
  }

  lemma RepairToken(t: Tree)
    requires t.Token?
    ensures Repair(Encode(t)) == Encode(RepairTree(t))
  {
    NumbersArePlain(t.kind, |t.value|);
    var before := Mark('T') + ShowText(t.kind) + Mark(':') + DigitsText(|t.value|) + Mark(':');
    PlainAfter(before + t.value, Mark(';'));
    PlainBefore(before, t.value);
  }

  /** The text of a tree or a child starts and ends with a plain mark. */
  lemma EncodeEdges(c: Option<Tree>)
    ensures var e := EncodeChild(c); e != [] && e[0] < 0x80 && e[|e| - 1] < 0x80
  {
  }

  lemma {:induction false} RepairEncoded(t: Tree)
    ensures Repair(Encode(t)) == Encode(RepairTree(t))
    decreases t, 0
  {
    if t.Token? {
      RepairToken(t);
    } else {
      RepairEncodedAll(t.children);
      NumbersArePlain(t.kind, 0);
      var before := Mark('N') + ShowText(t.kind) + Mark('[');
      PlainAfter(before + EncodeAll(t.children), Mark(']'));
      PlainBefore(before, EncodeAll(t.children));
    }
  }

  lemma {:induction false} RepairEncodedAll(cs: seq<Option<Tree>>)
    ensures Repair(EncodeAll(cs)) == EncodeAll(RepairAll(cs))
    decreases cs, 0
  {
    if cs != [] {
      EncodeEdges(cs[0]);
      RepairConcat(EncodeChild(cs[0]), EncodeAll(cs[1..]));
      RepairEncodedChild(cs[0]);
      RepairEncodedAll(cs[1..]);
      EncodeList(RepairChild(cs[0]), RepairAll(cs[1..]));
    }
  }

  lemma EncodeList(c: Option<Tree>, cs: seq<Option<Tree>>)
    ensures EncodeAll([c] + cs) == EncodeChild(c) + EncodeAll(cs)
  {
    assert ([c] + cs)[1..] == cs;
  }

  lemma {:induction false} RepairEncodedChild(c: Option<Tree>)
    ensures Repair(EncodeChild(c)) == EncodeChild(RepairChild(c))
    decreases c, 1
  {
    if c.Some? {
      RepairEncoded(c.value);
    } else {
      PlainKept(Mark('-'));
    }
  }

  /** Two trees give the digest the same bytes exactly when they agree up to lone surrogates in token values. */
  lemma DigestedBytesExactly(a: Tree, b: Tree)
    ensures GetBytes(Encode(a)) == GetBytes(Encode(b)) <==> RepairTree(a) == RepairTree(b)
  {
    GetBytesExactly(Encode(a), Encode(b));
    RepairEncoded(a);
    RepairEncoded(b);
    if RepairTree(a) != RepairTree(b) && Encode(RepairTree(a)) == Encode(RepairTree(b)) {
      EncodingIsInjective(RepairTree(a), RepairTree(b));
    }
  }

  /** Every token value is a string without lone surrogates. */
  predicate PairedTree(t: Tree)
    decreases t, 0
  {
    match t
    case Token(_, value) => Paired(value)
    case Node(_, children) => PairedAll(children)
  }

  predicate PairedAll(cs: seq<Option<Tree>>)
    decreases cs, 0
  {
    cs == [] || (PairedChild(cs[0]) && PairedAll(cs[1..]))
  }

  predicate PairedChild(c: Option<Tree>)
    decreases c, 1
  {
    c.Some? ==> PairedTree(c.value)
  }

  lemma {:induction false} PairedTreeKept(t: Tree)
    ensures PairedTree(t) <==> RepairTree(t) == t
    decreases t, 0
  {
    match t
    case Token(_, value) => PairedNeedsNoRepair(value);
    case Node(_, children) => PairedAllKept(children);
  }

  lemma {:induction false} PairedAllKept(cs: seq<Option<Tree>>)
    ensures PairedAll(cs) <==> RepairAll(cs) == cs
    decreases cs, 0
  {
    if cs != [] {
      PairedChildKept(cs[0]);
      PairedAllKept(cs[1..]);
      assert RepairAll(cs)[1..] == RepairAll(cs[1..]) && RepairAll(cs)[0] == RepairChild(cs[0]);
      assert cs == [cs[0]] + cs[1..];
    }
  }

  lemma {:induction false} PairedChildKept(c: Option<Tree>)
    ensures PairedChild(c) <==> RepairChild(c) == c
    decreases c, 1
  {
    if c.Some? {
      PairedTreeKept(c.value);
    }
  }

  /** So on trees without lone surrogates the digested bytes tell any two apart. */
  lemma PairedTreesDiffer(a: Tree, b: Tree)
    requires PairedTree(a) && PairedTree(b)
    ensures GetBytes(Encode(a)) == GetBytes(Encode(b)) <==> a == b
  {
    DigestedBytesExactly(a, b);
    PairedTreeKept(a);
    PairedTreeKept(b);
  }

  /** Without that they can collide: a lone surrogate is digested as the replacement character. */
  lemma LoneSurrogatesCollide()
    ensures var a, b := Token(0, [0xD800]), Token(0, [REPLACEMENT]);
            a != b && GetBytes(Encode(a)) == GetBytes(Encode(b))
  {
    DigestedBytesExactly(Token(0, [0xD800]), Token(0, [REPLACEMENT]));
  }
}
