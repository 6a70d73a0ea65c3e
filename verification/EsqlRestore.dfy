/** Putting the parameters back into the vendor tokens gives the tree written out in full. */
module EsqlRestore {
  import opened Concatenation
  import opened EsqlSyntax
  import opened EsqlPrinter
  import opened Wrappers

  function LiteralToken(v: Value): Token {
    match v
    case IntegerValue(n) => Integer(n)
    case BooleanValue(b) => Word(if b then "true" else "false")
    case TextValue(s) => Text(s)
  }

  function LogicalName(fs: seq<FieldRule>, vendor: string): string {
    var rule := FieldForVendor(fs, vendor);
    if rule.None? then vendor else rule.value.name
  }

  /** Replace the k-th `?` by the k-th parameter, and the vendor name before it by the logical one. */
  function Restore(fs: seq<FieldRule>, ts: seq<Token>, ps: seq<Parameter>): seq<Token> {
    if ts == [] then []
    else if |ts| >= 3 && ts[0].Word? && ts[2].Mark? && ps != [] then
      [Word(LogicalName(fs, ts[0].text)), ts[1], LiteralToken(ps[0].value)] + Restore(fs, ts[3..], ps[1..])
    else [ts[0]] + Restore(fs, ts[1..], ps)
  }

  /** The tree a caller would have written: literals in their normal form. */
  function Normal(fs: seq<FieldRule>, lib: Library, e: Expr): Expr {
    match e
    case Comparison(field, op, value) =>
      var p := ParameterOf(fs, lib, e);
      Comparison(field, op, if p.Ok? then p.value.value else value)
    case Logical(c, l, r) => Logical(c, Normal(fs, lib, l), Normal(fs, lib, r))
    case Negation(c) => Negation(Normal(fs, lib, c))
  }

  /** A tree written in full: every operator node in parentheses. */
  function Written(e: Expr): (ts: seq<Token>)
    ensures |ts| >= 3
  {
    match e
    case Comparison(field, op, value) => [Word(field), Operator(op), LiteralToken(value)]
    case Logical(c, l, r) => [LeftParen] + Written(l) + [Word(ConnectiveWord(c))] + Written(r) + [RightParen]
    case Negation(c) => [Word("NOT"), LeftParen] + Written(c) + [RightParen]
  }

  /** A token that starts no comparison is kept. */
  lemma RestoreSkips(fs: seq<FieldRule>, t: Token, ts: seq<Token>, ps: seq<Parameter>)
    requires !t.Word? || |ts| < 2 || !ts[1].Mark?
    ensures Restore(fs, [t] + ts, ps) == [t] + Restore(fs, ts, ps)
  {
    assert ([t] + ts)[1..] == ts;
  }

  lemma RestoreComparison(fs: seq<FieldRule>, vendor: string, op: CompareOp, ts: seq<Token>, p: Parameter,
                          ps: seq<Parameter>)
    ensures Restore(fs, [Word(vendor), Operator(op), Mark] + ts, [p] + ps)
         == [Word(LogicalName(fs, vendor)), Operator(op), LiteralToken(p.value)] + Restore(fs, ts, ps)
  {
    var all := [Word(vendor), Operator(op), Mark] + ts;
    assert all[3..] == ts && ([p] + ps)[1..] == ps;
  }

  /** The second token of a printed tree is never a mark. */
  lemma SecondIsNoMark(fs: seq<FieldRule>, e: Expr, rest: seq<Token>)
    ensures |VendorTokens(fs, e)| >= 3 && !(VendorTokens(fs, e) + rest)[0].Mark?
            && !(VendorTokens(fs, e) + rest)[1].Mark?
  {
    match e
    case Comparison(_, _, _) =>
    case Logical(c, l, r) =>
      SecondIsNoMark(fs, l, []);
      assert VendorTokens(fs, l) + [] == VendorTokens(fs, l);
      assert VendorTokens(fs, e)[1] == VendorTokens(fs, l)[0];
    case Negation(c) =>
      SecondIsNoMark(fs, c, []);
  }

  lemma {:induction false} RestoreGivesWritten(fs: seq<FieldRule>, lib: Library, e: Expr, rest: seq<Token>,
                                               ps: seq<Parameter>)
    requires ValidFields(fs) && Good(Table(fs), e) && Printable(fs, lib, e)
    ensures Restore(fs, VendorTokens(fs, e) + rest, ParametersOf(fs, lib, Comparisons(e)) + ps)
         == Written(Normal(fs, lib, e)) + Restore(fs, rest, ps)
    decreases e
  {
    match e
    case Comparison(field, op, value) =>
      GoodField(fs, e);
      assert e in Comparisons(e);
      var p := ParameterOf(fs, lib, e).value;
      assert ParametersOf(fs, lib, Comparisons(e)) == [p];
      RestoreComparison(fs, FieldNamed(fs, field).value.vendorName, op, rest, p, ps);
    case Logical(c, l, r) =>
      PrintableSplits(fs, lib, l, r, Comparisons(e));
      ParametersConcat(fs, lib, Comparisons(l), Comparisons(r), []);
      var lp, rp := ParametersOf(fs, lib, Comparisons(l)), ParametersOf(fs, lib, Comparisons(r));
      assert ParametersOf(fs, lib, Comparisons(e)) == lp + rp;
      Assoc(lp, rp, ps);
      RestoreLogical(fs, lib, c, l, r, rest, ps);
    case Negation(c) =>
      assert Comparisons(e) == Comparisons(c);
      RestoreNegation(fs, lib, c, rest, ps);
  }

  lemma AssocSix<T>(a: seq<T>, b: seq<T>, c: seq<T>, d: seq<T>, e: seq<T>, f: seq<T>)
    ensures a + b + c + d + e + f == a + (b + (c + (d + (e + f))))
  {
  }

  /** An operator word and a right operand are kept in place. */
  lemma RestoreRight(fs: seq<FieldRule>, t: Token, e: Expr, rest: seq<Token>, written: seq<Token>, p: seq<Parameter>,
                     ps: seq<Parameter>)
    requires Restore(fs, VendorTokens(fs, e) + ([RightParen] + rest), p)
             == written + Restore(fs, [RightParen] + rest, ps)
    ensures Restore(fs, [t] + (VendorTokens(fs, e) + ([RightParen] + rest)), p)
            == [t] + (written + ([RightParen] + Restore(fs, rest, ps)))
  {
    SecondIsNoMark(fs, e, [RightParen] + rest);
    RestoreSkips(fs, t, VendorTokens(fs, e) + ([RightParen] + rest), p);
    RestoreSkips(fs, RightParen, rest, ps);
  }

  lemma {:induction false} RestoreLogical(fs: seq<FieldRule>, lib: Library, c: Connective, l: Expr, r: Expr,
                                          rest: seq<Token>, ps: seq<Parameter>)
    requires ValidFields(fs) && Good(Table(fs), l) && Good(Table(fs), r)
    requires Printable(fs, lib, l) && Printable(fs, lib, r)
    ensures Restore(fs, VendorTokens(fs, Logical(c, l, r)) + rest,
                    ParametersOf(fs, lib, Comparisons(l)) + (ParametersOf(fs, lib, Comparisons(r)) + ps))
         == Written(Normal(fs, lib, Logical(c, l, r))) + Restore(fs, rest, ps)
    decreases Logical(c, l, r), 0
  {
    var w := Word(ConnectiveWord(c));
    var ls, rs := VendorTokens(fs, l), VendorTokens(fs, r);
    var lp := ParametersOf(fs, lib, Comparisons(l));
    var q := ParametersOf(fs, lib, Comparisons(r)) + ps;
    var ln, rn := Written(Normal(fs, lib, l)), Written(Normal(fs, lib, r));
    var r1 := [w] + (rs + ([RightParen] + rest));
    RestoreGivesWritten(fs, lib, r, [RightParen] + rest, ps);
    RestoreRight(fs, w, r, rest, rn, q, ps);
    RestoreGivesWritten(fs, lib, l, r1, q);
    RestoreSkips(fs, LeftParen, ls + r1, lp + q);
    AssocSix([LeftParen], ls, [w], rs, [RightParen], rest);
    AssocSix([LeftParen], ln, [w], rn, [RightParen], Restore(fs, rest, ps));
  }

  lemma {:induction false} RestoreNegation(fs: seq<FieldRule>, lib: Library, c: Expr, rest: seq<Token>,
                                           ps: seq<Parameter>)
    requires ValidFields(fs) && Good(Table(fs), c) && Printable(fs, lib, c)
    ensures Restore(fs, VendorTokens(fs, Negation(c)) + rest, ParametersOf(fs, lib, Comparisons(c)) + ps)
         == Written(Normal(fs, lib, Negation(c))) + Restore(fs, rest, ps)
    decreases Negation(c), 0
  {
    var cs := VendorTokens(fs, c);
    var cp := ParametersOf(fs, lib, Comparisons(c)) + ps;
    var cn := Written(Normal(fs, lib, c));
    var r1 := [LeftParen] + (cs + ([RightParen] + rest));
    RestoreGivesWritten(fs, lib, c, [RightParen] + rest, ps);
    RestoreRight(fs, LeftParen, c, rest, cn, cp, ps);
    assert r1[1] == (cs + ([RightParen] + rest))[0];
    SecondIsNoMark(fs, c, [RightParen] + rest);
    RestoreSkips(fs, Word("NOT"), r1, cp);
    NotFirst(cs, rest);
    NotFirst(cn, Restore(fs, rest, ps));
  }

  lemma NotFirst(cs: seq<Token>, rest: seq<Token>)
    ensures [Word("NOT"), LeftParen] + cs + [RightParen] + rest
            == [Word("NOT")] + ([LeftParen] + (cs + ([RightParen] + rest)))
  {
  }

  /** A good comparison's field is found by the compiler, and its vendor name maps back. */
  lemma GoodField(fs: seq<FieldRule>, e: Expr)
    requires ValidFields(fs) && e.Comparison? && GoodComparison(Table(fs), e)
    ensures FieldNamed(fs, e.field) == Some(Table(fs)[Lower(e.field)])
    ensures LogicalName(fs, FieldNamed(fs, e.field).value.vendorName) == e.field
  {
    TableHolds(fs, Lower(e.field));
    FieldNamedIn(fs, Table(fs)[Lower(e.field)]);
  }
}
