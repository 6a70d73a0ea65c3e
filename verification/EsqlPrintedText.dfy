/** The printed ES|QL text, piece by piece, and why the lexer reads it as the vendor tokens. */
module EsqlPrintedText {
  import opened Concatenation
  import opened EsqlSyntax
  import opened EsqlLexer
  import opened EsqlPrinter
  import opened Wrappers

  /** The text of one printed token, or the blank between two. */
  datatype Piece = Blank | Piece(text: string, token: Token)

  function PieceText(p: Piece): string {
    if p.Blank? then " " else p.text
  }

  function Join(ps: seq<Piece>): string {
    if ps == [] then "" else PieceText(ps[0]) + Join(ps[1..])
  }

  function TokensOf(ps: seq<Piece>): seq<Token> {
    if ps == [] then [] else (if ps[0].Blank? then [] else [ps[0].token]) + TokensOf(ps[1..])
  }

  lemma {:induction false} TextConcat(a: seq<Piece>, b: seq<Piece>)
    ensures Join(a + b) == Join(a) + Join(b)
  {
    if a == [] {
      assert a + b == b;
    } else {
      ConcatDrop(a, b, 1);
      TextConcat(a[1..], b);
      Assoc(PieceText(a[0]), Join(a[1..]), Join(b));
    }
  }

  lemma {:induction false} TokensConcat(a: seq<Piece>, b: seq<Piece>)
    ensures TokensOf(a + b) == TokensOf(a) + TokensOf(b)
  {
    if a == [] {
      assert a + b == b;
    } else {
      ConcatDrop(a, b, 1);
      TokensConcat(a[1..], b);
      Assoc(if a[0].Blank? then [] else [a[0].token], TokensOf(a[1..]), TokensOf(b));
    }
  }

  lemma JoinConcat(a: seq<Piece>, b: seq<Piece>)
    ensures Join(a + b) == Join(a) + Join(b) && TokensOf(a + b) == TokensOf(a) + TokensOf(b)
  {
    TextConcat(a, b);
    TokensConcat(a, b);
  }

  /** A piece's text is one that the lexer reads as its token. */
  predicate Spelled(p: Piece) {
    match p
    case Blank => true
    case Piece(text, Word(w)) => IsVendorName(w) && text == w
    case Piece(text, Operator(op)) => text == OpText(op)
    case Piece(text, LeftParen) => text == "("
    case Piece(text, RightParen) => text == ")"
    case Piece(text, Mark) => text == "?"
    case _ => false
  }

  predicate NeedsBlank(p: Piece) {
    p.Piece? && (p.token.Word? || p.token.Operator?)
  }

  /** Words and operators are followed by a blank. */
  predicate Separated(ps: seq<Piece>) {
    ps == [] ||
    (Spelled(ps[0]) && (NeedsBlank(ps[0]) ==> |ps| > 1 && ps[1].Blank?) && Separated(ps[1..]))
  }

  lemma {:induction false} SeparatedConcat(a: seq<Piece>, b: seq<Piece>)
    requires Separated(a) && Separated(b)
    ensures Separated(a + b)
  {
    if a == [] {
      assert a + b == b;
    } else {
      assert (a + b)[1..] == a[1..] + b;
      SeparatedConcat(a[1..], b);
    }
  }

  lemma SeparatedOne(p: Piece)
    requires Spelled(p) && !NeedsBlank(p)
    ensures Separated([p])
  {
    assert [p][1..] == [];
  }

  lemma SeparatedPair(p: Piece)
    requires Spelled(p)
    ensures Separated([p, Blank])
  {
    assert [p, Blank][1..] == [Blank];
    SeparatedOne(Blank);
  }

  lemma {:induction false} RunStops(w: string, rest: string)
    requires (forall c <- w :: IsWordContinue(c)) && rest != "" && !IsWordContinue(rest[0])
    ensures Run(IsWordContinue, w + rest) == |w|
  {
    if w == "" {
      assert w + rest == rest;
    } else {
      assert (w + rest)[1..] == w[1..] + rest && w[0] in w;
      RunStops(w[1..], rest);
    }
  }

  lemma ScansWord(mode: Mode, w: string, rest: string)
    requires IsVendorName(w) && rest != "" && rest[0] == ' '
    ensures ScanToken(mode, w + rest) == Scanned(Word(w), |w|)
  {
    var s := w + rest;
    assert s[0] == w[0] && s[1..] == w[1..] + rest;
    RunStops(w[1..], rest);
    assert s[..|w|] == w;
  }

  lemma ScansOperator(mode: Mode, op: CompareOp, rest: string)
    requires rest != "" && rest[0] == ' '
    ensures ScanToken(mode, OpText(op) + rest) == Scanned(Operator(op), |OpText(op)|)
  {
    var s := OpText(op) + rest;
    assert s[0] == OpText(op)[0] && (|OpText(op)| == 2 ==> s[1] == '=') && (|OpText(op)| == 1 ==> s[1] == ' ');
  }

  lemma ScansPiece(mode: Mode, p: Piece, rest: string)
    requires mode.marks && p.Piece? && Spelled(p) && (NeedsBlank(p) ==> rest != "" && rest[0] == ' ')
    ensures p.text != "" && !IsSpace((p.text + rest)[0])
    ensures ScanToken(mode, p.text + rest) == Scanned(p.token, |p.text|)
  {
    if p.token.Word? {
      ScansWord(mode, p.text, rest);
    } else if p.token.Operator? {
      ScansOperator(mode, p.token.op, rest);
    }
  }

  lemma BlankFirst(ps: seq<Piece>)
    requires ps != [] && ps[0].Blank?
    ensures Join(ps) != "" && Join(ps)[0] == ' '
  {
  }

  /** Well separated pieces lex to their tokens. */
  lemma {:induction false} PiecesLex(mode: Mode, ps: seq<Piece>, budget: nat)
    requires mode.marks && Separated(ps) && budget > |TokensOf(ps)|
    ensures Lex(mode, Join(ps), budget) == Ok(TokensOf(ps))
    decreases |ps|
  {
    if ps != [] {
      var rest := Join(ps[1..]);
      var s := PieceText(ps[0]) + rest;
      assert s[|PieceText(ps[0])|..] == rest;
      if ps[0].Blank? {
        assert TokensOf(ps) == TokensOf(ps[1..]);
        PiecesLex(mode, ps[1..], budget);
      } else {
        if NeedsBlank(ps[0]) {
          BlankFirst(ps[1..]);
        }
        ScansPiece(mode, ps[0], rest);
        PiecesLex(mode, ps[1..], budget - 1);
      }
    }
  }

  /** The pieces of the printed text. */
  function Pieces(fs: seq<FieldRule>, e: Expr): seq<Piece> {
    match e
    case Comparison(field, op, _) =>
      var vendor := if FieldNamed(fs, field).None? then "" else FieldNamed(fs, field).value.vendorName;
      [Piece(vendor, Word(vendor)), Blank, Piece(OpText(op), Operator(op)), Blank, Piece("?", Mark)]
    case Logical(c, l, r) =>
      [Piece("(", LeftParen)] + Pieces(fs, l) + Around(c) + Pieces(fs, r) + [Piece(")", RightParen)]
    case Negation(c) => Opening() + Pieces(fs, c) + [Piece(")", RightParen)]
  }

  function Around(c: Connective): seq<Piece> {
    [Blank, Piece(ConnectiveWord(c), Word(ConnectiveWord(c))), Blank]
  }

  function Opening(): seq<Piece> {
    [Piece("NOT", Word("NOT")), Blank, Piece("(", LeftParen)]
  }

  lemma JoinOne(p: Piece)
    ensures Join([p]) == PieceText(p) && TokensOf([p]) == if p.Blank? then [] else [p.token]
  {
    assert [p][1..] == [];
  }

  lemma JoinThree(p: Piece, q: Piece, r: Piece)
    ensures Join([p, q, r]) == PieceText(p) + PieceText(q) + PieceText(r)
    ensures TokensOf([p, q, r]) == TokensOf([p]) + TokensOf([q]) + TokensOf([r])
  {
    assert [p, q, r] == [p] + [q] + [r];
    JoinConcat([p] + [q], [r]);
    JoinConcat([p], [q]);
    JoinOne(p);
    JoinOne(q);
    JoinOne(r);
  }

  lemma ComparisonPieces(vendor: string, op: CompareOp)
    ensures var ps := [Piece(vendor, Word(vendor)), Blank, Piece(OpText(op), Operator(op)), Blank, Piece("?", Mark)];
            Join(ps) == vendor + " " + OpText(op) + " ?" && TokensOf(ps) == [Word(vendor), Operator(op), Mark]
  {
    var a := [Piece(vendor, Word(vendor)), Blank, Piece(OpText(op), Operator(op))];
    var b := [Blank, Piece("?", Mark)];
    assert [Piece(vendor, Word(vendor)), Blank, Piece(OpText(op), Operator(op)), Blank, Piece("?", Mark)] == a + b;
    JoinConcat(a, b);
    JoinThree(a[0], a[1], a[2]);
    JoinOne(a[0]);
    JoinOne(a[1]);
    JoinOne(a[2]);
    JoinConcat([b[0]], [b[1]]);
    JoinOne(b[0]);
    JoinOne(b[1]);
    assert b == [b[0]] + [b[1]];
    assert " " + "?" == " ?";
  }

  lemma LogicalPieces(c: Connective, l: seq<Piece>, r: seq<Piece>)
    ensures var ps := [Piece("(", LeftParen)] + l + Around(c) + r + [Piece(")", RightParen)];
            && Join(ps) == "(" + Join(l) + " " + ConnectiveWord(c) + " " + Join(r) + ")"
            && TokensOf(ps) == [LeftParen] + TokensOf(l) + [Word(ConnectiveWord(c))] + TokensOf(r) + [RightParen]
  {
    var a, z := [Piece("(", LeftParen)], [Piece(")", RightParen)];
    JoinConcat(a + l + Around(c) + r, z);
    JoinConcat(a + l + Around(c), r);
    JoinConcat(a + l, Around(c));
    JoinConcat(a, l);
    JoinOne(a[0]);
    JoinOne(z[0]);
    AroundPieces(c);
    AssocText("(" + Join(l), " ", ConnectiveWord(c), " ");
  }

  lemma AssocText(a: string, b: string, c: string, d: string)
    ensures a + (b + c + d) == a + b + c + d
  {
  }

  lemma AroundPieces(c: Connective)
    ensures Join(Around(c)) == " " + ConnectiveWord(c) + " " && TokensOf(Around(c)) == [Word(ConnectiveWord(c))]
  {
    var ps := Around(c);
    JoinThree(ps[0], ps[1], ps[2]);
    JoinOne(ps[0]);
    JoinOne(ps[1]);
    JoinOne(ps[2]);
  }

  lemma OpeningPieces()
    ensures Join(Opening()) == "NOT (" && TokensOf(Opening()) == [Word("NOT"), LeftParen]
  {
    var n, p := Piece("NOT", Word("NOT")), Piece("(", LeftParen);
    JoinThree(n, Blank, p);
    JoinOne(n);
    JoinOne(Blank);
    JoinOne(p);
    assert "NOT" + " " + "(" == "NOT (" && [Word("NOT")] + [] + [LeftParen] == [Word("NOT"), LeftParen];
  }

  lemma NegationPieces(c: seq<Piece>)
    ensures var ps := Opening() + c + [Piece(")", RightParen)];
            Join(ps) == "NOT (" + Join(c) + ")" && TokensOf(ps) == [Word("NOT"), LeftParen] + TokensOf(c) + [RightParen]
  {
    var a, z := Opening(), [Piece(")", RightParen)];
    JoinConcat(a + c, z);
    JoinConcat(a, c);
    OpeningPieces();
    JoinOne(z[0]);
  }

  lemma {:induction false} PiecesAreVendorTokens(fs: seq<FieldRule>, e: Expr)
    ensures TokensOf(Pieces(fs, e)) == VendorTokens(fs, e)
  {
    match e
    case Comparison(field, op, _) =>
      ComparisonPieces(if FieldNamed(fs, field).None? then "" else FieldNamed(fs, field).value.vendorName, op);
    case Logical(c, l, r) =>
      PiecesAreVendorTokens(fs, l);
      PiecesAreVendorTokens(fs, r);
      LogicalPieces(c, Pieces(fs, l), Pieces(fs, r));
    case Negation(c) =>
      PiecesAreVendorTokens(fs, c);
      NegationPieces(Pieces(fs, c));
  }

  lemma {:induction false} PrintedIsJoined(fs: seq<FieldRule>, lib: Library, e: Expr, ps: seq<Parameter>)
    requires Print(fs, lib, e, ps).Ok?
    ensures Print(fs, lib, e, ps).value.text == Join(Pieces(fs, e))
    decreases e
  {
    match e
    case Comparison(field, op, _) =>
      ComparisonPieces(FieldNamed(fs, field).value.vendorName, op);
    case Logical(c, l, r) =>
      PrintedIsJoined(fs, lib, l, ps);
      PrintedIsJoined(fs, lib, r, Print(fs, lib, l, ps).value.parameters);
      LogicalPieces(c, Pieces(fs, l), Pieces(fs, r));
    case Negation(c) =>
      PrintedIsJoined(fs, lib, c, ps);
      NegationPieces(Pieces(fs, c));
  }

  lemma ComparisonSeparated(vendor: string, op: CompareOp)
    requires IsVendorName(vendor)
    ensures Separated([Piece(vendor, Word(vendor)), Blank, Piece(OpText(op), Operator(op)), Blank, Piece("?", Mark)])
  {
    var a, b, c := Piece(vendor, Word(vendor)), Piece(OpText(op), Operator(op)), Piece("?", Mark);
    SeparatedPair(a);
    SeparatedPair(b);
    SeparatedOne(c);
    SeparatedConcat([a, Blank], [b, Blank]);
    SeparatedConcat([a, Blank] + [b, Blank], [c]);
    assert [a, Blank, b, Blank, c] == [a, Blank] + [b, Blank] + [c];
  }

  lemma KeywordSeparated(w: string)
    requires IsVendorName(w)
    ensures Separated([Blank, Piece(w, Word(w)), Blank])
  {
    SeparatedOne(Blank);
    SeparatedPair(Piece(w, Word(w)));
    SeparatedConcat([Blank], [Piece(w, Word(w)), Blank]);
    assert [Blank, Piece(w, Word(w)), Blank] == [Blank] + [Piece(w, Word(w)), Blank];
  }

  lemma OpeningSeparated()
    ensures Separated(Opening())
  {
    var n, p := Piece("NOT", Word("NOT")), Piece("(", LeftParen);
    SeparatedPair(n);
    SeparatedOne(p);
    SeparatedConcat([n, Blank], [p]);
    assert Opening() == [n, Blank] + [p];
  }

  lemma {:induction false} PiecesAreSeparated(fs: seq<FieldRule>, lib: Library, e: Expr)
    requires ValidFields(fs) && Printable(fs, lib, e)
    ensures Separated(Pieces(fs, e))
  {
    var z := [Piece(")", RightParen)];
    SeparatedOne(z[0]);
    match e
    case Comparison(field, op, _) =>
      assert e in Comparisons(e);
      NamedIsValid(fs, field);
      ComparisonSeparated(FieldNamed(fs, field).value.vendorName, op);
    case Logical(c, l, r) =>
      PrintableSplits(fs, lib, l, r, Comparisons(e));
      PiecesAreSeparated(fs, lib, l);
      PiecesAreSeparated(fs, lib, r);
      var a := [Piece("(", LeftParen)];
      SeparatedOne(a[0]);
      KeywordSeparated(ConnectiveWord(c));
      SeparatedConcat(a, Pieces(fs, l));
      SeparatedConcat(a + Pieces(fs, l), Around(c));
      SeparatedConcat(a + Pieces(fs, l) + Around(c), Pieces(fs, r));
      SeparatedConcat(a + Pieces(fs, l) + Around(c) + Pieces(fs, r), z);
    case Negation(c) =>
      assert Comparisons(e) == Comparisons(c);
      PiecesAreSeparated(fs, lib, c);
      OpeningSeparated();
      SeparatedConcat(Opening(), Pieces(fs, c));
      SeparatedConcat(Opening() + Pieces(fs, c), z);
  }

  /** The printed text lexes to the vendor tokens. */
  lemma PrintedLexes(fs: seq<FieldRule>, lib: Library, e: Expr, mode: Mode, budget: nat)
    requires ValidFields(fs) && mode.marks
    requires Print(fs, lib, e, []).Ok? && budget > |VendorTokens(fs, e)|
    ensures Lex(mode, Print(fs, lib, e, []).value.text, budget) == Ok(VendorTokens(fs, e))
  {
    PrintSucceeds(fs, lib, e, []);
    PrintedIsJoined(fs, lib, e, []);
    PiecesAreVendorTokens(fs, e);
    PiecesAreSeparated(fs, lib, e);
    PiecesLex(mode, Pieces(fs, e), budget);
  }

  lemma {:induction false} NamedIsValid(fs: seq<FieldRule>, name: string)
    requires ValidFields(fs)
    ensures FieldNamed(fs, name).Some? ==>
            FieldNamed(fs, name).value in fs && IsVendorName(FieldNamed(fs, name).value.vendorName)
  {
    if fs != [] {
      assert fs[0] in fs && forall f <- fs[1..] :: f in fs;
      NamedIsValid(fs[1..], name);
    }
  }
}
