/** What printing an ES|QL tree keeps: the tree, its truth value and the order of its parameters. */
module EsqlRoundTrip {
  import opened Concatenation
  import opened EsqlSyntax
  import opened EsqlLexer
  import opened EsqlParser
  import opened EsqlPrinter
  import opened EsqlPrintedText
  import opened EsqlRestore
  import opened EsqlReading
  import opened Wrappers

  // ----- the results

  lemma {:induction false} NormalIsGood(fs: seq<FieldRule>, lib: Library, e: Expr)
    requires ValidFields(fs) && Good(Table(fs), e)
    ensures Good(Table(fs), Normal(fs, lib, e)) && Nest(Normal(fs, lib, e)) == Nest(e)
  {
    match e
    case Comparison(_, _, _) =>
      GoodField(fs, e);
    case Logical(_, l, r) =>
      NormalIsGood(fs, lib, l);
      NormalIsGood(fs, lib, r);
    case Negation(c) =>
      NormalIsGood(fs, lib, c);
  }

  /**
   * Lexing the canonical text, putting the parameters back in order, mapping vendor names back
   * and parsing again gives the same tree up to timestamp normalisation, exactly when its
   * nesting fits the depth limit.
   */
  lemma RoundTrip(fs: seq<FieldRule>, lib: Library, e: Expr, mode: Mode, limit: nat, budget: nat)
    requires ValidFields(fs) && Good(Table(fs), e) && mode.marks
    requires Print(fs, lib, e, []).Ok? && budget > |VendorTokens(fs, e)|
    ensures var printed := Print(fs, lib, e, []).value;
            && Lex(mode, printed.text, budget) == Ok(VendorTokens(fs, e))
            && var again := ParseWhere(Table(fs), limit, Restore(fs, VendorTokens(fs, e), printed.parameters) + [Eof]);
               if Nest(e) <= limit then again == Ok(Normal(fs, lib, e)) else again.Err?
  {
    PrintedLexes(fs, lib, e, mode, budget);
    RestoredIsWritten(fs, lib, e);
    NormalIsGood(fs, lib, e);
    WrittenIsWhole(Table(fs), limit, Normal(fs, lib, e));
  }

  lemma RestoredIsWritten(fs: seq<FieldRule>, lib: Library, e: Expr)
    requires ValidFields(fs) && Good(Table(fs), e) && Print(fs, lib, e, []).Ok?
    ensures Restore(fs, VendorTokens(fs, e), Print(fs, lib, e, []).value.parameters) == Written(Normal(fs, lib, e))
  {
    PrintSucceeds(fs, lib, e, []);
    var ps := ParametersOf(fs, lib, Comparisons(e));
    RestoreGivesWritten(fs, lib, e, [], []);
    Padding(VendorTokens(fs, e));
    Padding(ps);
    Padding(Written(Normal(fs, lib, e)));
  }

  lemma Padding<T>(s: seq<T>)
    ensures s + [] == s && [] + s == s
  {
  }

  /** The same statement for every tree the parser accepts, at the compiler's own depth limit. */
  lemma AcceptedRoundTrip(fs: seq<FieldRule>, lib: Library, input: seq<Token>, mode: Mode, budget: nat)
    requires ValidFields(fs) && mode.marks && EndsInput(input) && ParseWhere(Table(fs), MAXIMUM_DEPTH, input).Ok?
    requires var e := ParseWhere(Table(fs), MAXIMUM_DEPTH, input).value;
             Print(fs, lib, e, []).Ok? && budget > |VendorTokens(fs, e)|
    ensures var e := ParseWhere(Table(fs), MAXIMUM_DEPTH, input).value;
            var printed := Print(fs, lib, e, []).value;
            && Lex(mode, printed.text, budget) == Ok(VendorTokens(fs, e))
            && var again := ParseWhere(Table(fs), MAXIMUM_DEPTH,
                                       Restore(fs, VendorTokens(fs, e), printed.parameters) + [Eof]);
               again == Ok(Normal(fs, lib, e)) <==> Nest(e) <= 16
  {
    AcceptedIsGood(Table(fs), MAXIMUM_DEPTH, input);
    RoundTrip(fs, lib, ParseWhere(Table(fs), MAXIMUM_DEPTH, input).value, mode, MAXIMUM_DEPTH, budget);
  }

  // ----- long chains are accepted, but do not fit once printed

  function Chain(c: Expr, n: nat): Expr {
    if n == 0 then c else Logical(And, Chain(c, n - 1), c)
  }

  /** `c AND c AND … c` with `n` further operands and no parentheses. */
  function Flat(c: Expr, n: nat): seq<Token>
    requires c.Comparison?
  {
    if n == 0 then [] else [Word("AND")] + Written(c) + Flat(c, n - 1)
  }

  /** `n` further operands stand from `pos` to the end. */
  predicate SpellsChain(ts: seq<Token>, pos: nat, c: Expr, n: nat)
    decreases n
  {
    if n == 0 then pos == |ts| - 1
    else pos + 4 < |ts| && ts[pos] == Word("AND") && Spells(ts, pos + 1, c) && SpellsChain(ts, pos + 4, c, n - 1)
  }

  lemma {:induction false} FlatSpells(pre: seq<Token>, c: Expr, n: nat)
    requires c.Comparison?
    ensures SpellsChain(pre + Flat(c, n) + [Eof], |pre|, c, n)
    decreases n
  {
    if n > 0 {
      var ts := pre + Flat(c, n) + [Eof];
      var next := pre + ([Word("AND")] + Written(c));
      assert ts == next + Flat(c, n - 1) + [Eof];
      FlatSpells(next, c, n - 1);
      WrittenSpells(c);
      assert Copied(Written(c), ts, |pre| + 1);
      SpellsCopied(Written(c), ts, |pre| + 1, 0, |pre| + 1, c);
    }
  }

  lemma {:induction false} ChainTail(fields: Fields, limit: nat, ts: seq<Token>, c: Expr, done: nat, n: nat, pos: nat)
    requires EndsInput(ts) && c.Comparison? && GoodComparison(fields, c) && pos < |ts| && SpellsChain(ts, pos, c, n)
    ensures AndTail(fields, limit, ts, Chain(c, done), pos, 0) == Parsed(Chain(c, done + n), |ts| - 1)
    decreases n
  {
    if n == 0 {
      ConnectiveWords(And);
    } else {
      ChainTail(fields, limit, ts, c, done + 1, n - 1, pos + 4);
      ChainStep(fields, limit, ts, c, done, pos);
    }
  }

  /** One turn of the AND loop. */
  lemma ChainStep(fields: Fields, limit: nat, ts: seq<Token>, c: Expr, done: nat, pos: nat)
    requires EndsInput(ts) && c.Comparison? && GoodComparison(fields, c)
    requires pos + 4 < |ts| && ts[pos] == Word("AND") && Spells(ts, pos + 1, c)
    ensures AndTail(fields, limit, ts, Chain(c, done), pos, 0)
            == AndTail(fields, limit, ts, Chain(c, done + 1), pos + 4, 0)
  {
    ConnectiveWords(And);
    ComparisonParses(fields, limit, ts, c, pos + 1, 0);
    assert Chain(c, done + 1) == Logical(And, Chain(c, done), c);
  }

  lemma {:induction false} ChainNest(c: Expr, n: nat)
    requires c.Comparison?
    ensures Nest(Chain(c, n)) == n
  {
    if n > 0 {
      ChainNest(c, n - 1);
    }
  }

  /** Any chain of ANDs is accepted at depth 0 and nests once per AND when printed: 17 do not fit. */
  lemma LongChainsAreAccepted(fields: Fields, limit: nat, c: Expr, n: nat)
    requires c.Comparison? && GoodComparison(fields, c)
    ensures ParseWhere(fields, limit, Written(c) + Flat(c, n) + [Eof]) == Ok(Chain(c, n))
    ensures Nest(Chain(c, n)) == n
  {
    var ts := Written(c) + Flat(c, n) + [Eof];
    WrittenSpells(c);
    assert Copied(Written(c), ts, 0);
    SpellsCopied(Written(c), ts, 0, 0, 0, c);
    FlatSpells(Written(c), c, n);
    ChainParses(fields, limit, ts, c, n);
    ChainNest(c, n);
  }

  lemma ChainParses(fields: Fields, limit: nat, ts: seq<Token>, c: Expr, n: nat)
    requires EndsInput(ts) && c.Comparison? && GoodComparison(fields, c)
    requires 3 < |ts| && Spells(ts, 0, c) && SpellsChain(ts, 3, c, n)
    ensures ParseWhere(fields, limit, ts) == Ok(Chain(c, n))
  {
    ChainTail(fields, limit, ts, c, 0, n, 3);
    ChainStarts(fields, limit, ts, c);
    ChainEnds(fields, limit, ts, Chain(c, n));
  }

  lemma ChainStarts(fields: Fields, limit: nat, ts: seq<Token>, c: Expr)
    requires EndsInput(ts) && c.Comparison? && GoodComparison(fields, c) && Spells(ts, 0, c) && 3 < |ts|
    ensures ParseAnd(fields, limit, ts, 0, 0) == AndTail(fields, limit, ts, Chain(c, 0), 3, 0)
  {
    ComparisonParses(fields, limit, ts, c, 0, 0);
  }

  lemma ChainEnds(fields: Fields, limit: nat, ts: seq<Token>, e: Expr)
    requires EndsInput(ts) && |ts| > 1 && ParseAnd(fields, limit, ts, 0, 0) == Parsed(e, |ts| - 1)
    ensures ParseWhere(fields, limit, ts) == Ok(e)
  {
    ConnectiveWords(And);
    assert ts[|ts| - 1] == Eof;
    assert OrTail(fields, limit, ts, e, |ts| - 1, 0) == Parsed(e, |ts| - 1);
  }

  // ----- meaning, and which parameter belongs to which mark

  /** The truth of a tree on a document that decides each comparison. */
  predicate Eval(document: (string, CompareOp, Value) -> bool, e: Expr) {
    match e
    case Comparison(field, op, value) => document(field, op, value)
    case Logical(c, l, r) =>
      if c.And? then Eval(document, l) && Eval(document, r) else Eval(document, l) || Eval(document, r)
    case Negation(c) => !Eval(document, c)
  }

  /** A document sees a literal and the parameter made from it as the same value. */
  ghost predicate RespectsParameters(fs: seq<FieldRule>, lib: Library, document: (string, CompareOp, Value) -> bool) {
    forall f: string, op: CompareOp, v: Value, p: Parameter ::
      ParameterOf(fs, lib, Comparison(f, op, v)) == Ok(p) ==> document(f, op, v) == document(f, op, p.value)
  }

  lemma {:induction false} NormalKeepsTruth(fs: seq<FieldRule>, lib: Library, e: Expr,
                                            document: (string, CompareOp, Value) -> bool)
    requires RespectsParameters(fs, lib, document)
    ensures Eval(document, Normal(fs, lib, e)) == Eval(document, e)
  {
    match e
    case Comparison(field, op, value) =>
      var p := ParameterOf(fs, lib, Comparison(field, op, value));
      if p.Ok? {
        assert document(field, op, value) == document(field, op, p.value.value);
      }
    case Logical(_, l, r) =>
      NormalKeepsTruth(fs, lib, l, document);
      NormalKeepsTruth(fs, lib, r, document);
    case Negation(c) =>
      NormalKeepsTruth(fs, lib, c, document);
  }

  /** The text with its parameters has the truth value of the parsed tree on every document. */
  lemma PrintedKeepsTruth(fs: seq<FieldRule>, lib: Library, e: Expr, mode: Mode, limit: nat, budget: nat,
                          document: (string, CompareOp, Value) -> bool)
    requires ValidFields(fs) && Good(Table(fs), e) && mode.marks && limit >= Nest(e)
    requires Print(fs, lib, e, []).Ok? && budget > |VendorTokens(fs, e)| && RespectsParameters(fs, lib, document)
    ensures var printed := Print(fs, lib, e, []).value;
            var tokens := Lex(mode, printed.text, budget);
            && tokens.Ok?
            && var again := ParseWhere(Table(fs), limit, Restore(fs, tokens.value, printed.parameters) + [Eof]);
               again.Ok? && Eval(document, again.value) == Eval(document, e)
  {
    RoundTrip(fs, lib, e, mode, limit, budget);
    NormalKeepsTruth(fs, lib, e, document);
  }

  /** The field and operator in front of each mark, from left to right. */
  function Sites(ts: seq<Token>): seq<(string, CompareOp)> {
    if |ts| < 3 then []
    else if ts[0].Word? && ts[1].Operator? && ts[2].Mark? then [(ts[0].text, ts[1].op)] + Sites(ts[3..])
    else Sites(ts[1..])
  }

  function SitesOf(fs: seq<FieldRule>, cs: seq<Expr>): (sites: seq<(string, CompareOp)>)
    requires forall c <- cs :: c.Comparison?
    ensures |sites| == |cs|
  {
    if cs == [] then []
    else
      var rule := FieldNamed(fs, cs[0].field);
      [(if rule.None? then "" else rule.value.vendorName, cs[0].op)] + SitesOf(fs, cs[1..])
  }

  lemma {:induction false} SitesOfConcat(fs: seq<FieldRule>, a: seq<Expr>, b: seq<Expr>)
    requires (forall c <- a :: c.Comparison?) && (forall c <- b :: c.Comparison?)
    ensures SitesOf(fs, a + b) == SitesOf(fs, a) + SitesOf(fs, b)
  {
    if a == [] {
      assert a + b == b;
    } else {
      assert (a + b)[1..] == a[1..] + b;
      SitesOfConcat(fs, a[1..], b);
    }
  }

  lemma SitesSkip(t: Token, ts: seq<Token>)
    requires !t.Word? || |ts| < 2 || !ts[0].Operator?
    ensures Sites([t] + ts) == Sites(ts)
  {
    assert ([t] + ts)[1..] == ts;
  }

  lemma FirstIsNoOperator(fs: seq<FieldRule>, e: Expr)
    ensures |VendorTokens(fs, e)| >= 3 && !VendorTokens(fs, e)[0].Operator?
  {
  }

  /** An operator word, a right operand and its closing parenthesis. */
  lemma SitesRight(fs: seq<FieldRule>, t: Token, e: Expr, rest: seq<Token>, sites: seq<(string, CompareOp)>)
    requires Sites(VendorTokens(fs, e) + ([RightParen] + rest)) == sites + Sites([RightParen] + rest)
    ensures Sites([t] + (VendorTokens(fs, e) + ([RightParen] + rest))) == sites + Sites(rest)
  {
    FirstIsNoOperator(fs, e);
    SitesSkip(t, VendorTokens(fs, e) + ([RightParen] + rest));
    SitesSkip(RightParen, rest);
  }

  lemma {:induction false} SitesAreComparisons(fs: seq<FieldRule>, e: Expr, rest: seq<Token>)
    ensures Sites(VendorTokens(fs, e) + rest) == SitesOf(fs, Comparisons(e)) + Sites(rest)
    decreases e
  {
    match e
    case Comparison(_, _, _) =>
      assert (VendorTokens(fs, e) + rest)[3..] == rest;
      assert SitesOf(fs, [e][1..]) == [];
    case Logical(c, l, r) =>
      SitesOfLogical(fs, c, l, r, rest);
    case Negation(c) =>
      var r1 := [LeftParen] + (VendorTokens(fs, c) + ([RightParen] + rest));
      NotFirst(VendorTokens(fs, c), rest);
      SitesSkip(Word("NOT"), r1);
      SitesAreComparisons(fs, c, [RightParen] + rest);
      SitesRight(fs, LeftParen, c, rest, SitesOf(fs, Comparisons(c)));
  }

  lemma {:induction false} SitesOfLogical(fs: seq<FieldRule>, c: Connective, l: Expr, r: Expr, rest: seq<Token>)
    ensures Sites(VendorTokens(fs, Logical(c, l, r)) + rest)
            == SitesOf(fs, Comparisons(l) + Comparisons(r)) + Sites(rest)
    decreases Logical(c, l, r), 0
  {
    var w := Word(ConnectiveWord(c));
    var ls, rs := VendorTokens(fs, l), VendorTokens(fs, r);
    var sl, sr := SitesOf(fs, Comparisons(l)), SitesOf(fs, Comparisons(r));
    var r1 := [w] + (rs + ([RightParen] + rest));
    AssocSix([LeftParen], ls, [w], rs, [RightParen], rest);
    SitesSkip(LeftParen, ls + r1);
    SitesAreComparisons(fs, l, r1);
    SitesAreComparisons(fs, r, [RightParen] + rest);
    SitesRight(fs, w, r, rest, sr);
    SitesOfConcat(fs, Comparisons(l), Comparisons(r));
    Assoc(sl, sr, Sites(rest));
  }

  lemma {:induction false} SiteAt(fs: seq<FieldRule>, cs: seq<Expr>, k: nat)
    requires k < |cs| && forall c <- cs :: c.Comparison?
    ensures var rule := FieldNamed(fs, cs[k].field);
            SitesOf(fs, cs)[k] == (if rule.None? then "" else rule.value.vendorName, cs[k].op)
  {
    if k > 0 {
      SiteAt(fs, cs[1..], k - 1);
    }
  }

  /**
   * The k-th mark of the canonical text stands behind the vendor field and operator of the k-th
   * comparison, and the k-th parameter is that comparison's literal; there are equally many.
   */
  lemma MarksMatchParameters(fs: seq<FieldRule>, lib: Library, e: Expr, mode: Mode, budget: nat, k: nat)
    requires ValidFields(fs) && mode.marks && Print(fs, lib, e, []).Ok? && budget > |VendorTokens(fs, e)|
    ensures var printed := Print(fs, lib, e, []).value;
            var tokens := Lex(mode, printed.text, budget);
            && tokens.Ok? && |Sites(tokens.value)| == |printed.parameters| == |Comparisons(e)|
            && (k < |Comparisons(e)| ==>
                  var c := Comparisons(e)[k];
                  var rule := FieldNamed(fs, c.field);
                  && rule.Some? && Sites(tokens.value)[k] == (rule.value.vendorName, c.op)
                  && Ok(printed.parameters[k]) == TypedParameter(lib, rule.value.kind, c.value))
  {
    var printed := Print(fs, lib, e, []).value;
    var ts := VendorTokens(fs, e);
    PrintSucceeds(fs, lib, e, []);
    PrintedLexes(fs, lib, e, mode, budget);
    assert ts + [] == ts;
    SitesAreComparisons(fs, e, []);
    var cs := Comparisons(e);
    assert SitesOf(fs, cs) + [] == SitesOf(fs, cs);
    if k < |cs| {
      SiteAt(fs, cs, k);
      assert cs[k] in cs;
    }
  }
}
