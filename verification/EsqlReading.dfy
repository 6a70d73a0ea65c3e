/** The parser reads a fully written tree back, exactly when its nesting fits the depth limit. */
module EsqlReading {
  import opened EsqlSyntax
  import opened EsqlParser
  import opened EsqlPrinter
  import opened EsqlRestore
  import opened Wrappers

  /** How deeply the parser nests on the written form. */
  function Nest(e: Expr): nat {
    match e
    case Comparison(_, _, _) => 0
    case Logical(_, l, r) => 1 + if Nest(l) >= Nest(r) then Nest(l) else Nest(r)
    case Negation(c) => 2 + Nest(c)
  }

  /** The length of the written form. */
  function Width(e: Expr): (n: nat)
    ensures n >= 3
  {
    match e
    case Comparison(_, _, _) => 3
    case Logical(_, l, r) => Width(l) + Width(r) + 3
    case Negation(c) => Width(c) + 3
  }

  /** The tokens from `pos` on spell `e` in its written form. */
  predicate Spells(ts: seq<Token>, pos: nat, e: Expr)
    decreases e
  {
    pos + Width(e) <= |ts| &&
    match e
    case Comparison(field, op, value) =>
      ts[pos] == Word(field) && ts[pos + 1] == Operator(op) && ts[pos + 2] == LiteralToken(value)
    case Logical(c, l, r) =>
      && ts[pos] == LeftParen && Spells(ts, pos + 1, l) && ts[pos + 1 + Width(l)] == Word(ConnectiveWord(c))
      && Spells(ts, pos + 2 + Width(l), r) && ts[pos + 2 + Width(l) + Width(r)] == RightParen
    case Negation(c) =>
      && ts[pos] == Word("NOT") && ts[pos + 1] == LeftParen && Spells(ts, pos + 2, c)
      && ts[pos + 2 + Width(c)] == RightParen
  }

  lemma {:induction false} WidthIsLength(e: Expr)
    ensures |Written(e)| == Width(e)
  {
    match e
    case Comparison(_, _, _) =>
    case Logical(_, l, r) =>
      WidthIsLength(l);
      WidthIsLength(r);
    case Negation(c) =>
      WidthIsLength(c);
  }

  /** `part` stands in `ts` from `at` on. */
  predicate Copied(part: seq<Token>, ts: seq<Token>, at: nat) {
    at + |part| <= |ts| && forall i | 0 <= i < |part| :: ts[at + i] == part[i]
  }

  lemma CopiedAt(part: seq<Token>, ts: seq<Token>, at: nat, i: nat)
    requires Copied(part, ts, at) && i < |part|
    ensures at + i < |ts| && ts[at + i] == part[i]
  {
  }

  /** Spelling is kept wherever the tokens are copied to. */
  lemma {:induction false} SpellsCopied(part: seq<Token>, ts: seq<Token>, at: nat, pos: nat, dest: nat, e: Expr)
    requires Copied(part, ts, at) && Spells(part, pos, e) && dest == at + pos
    ensures Spells(ts, dest, e)
    decreases e
  {
    match e
    case Comparison(_, _, _) =>
      CopiedAt(part, ts, at, pos);
      CopiedAt(part, ts, at, pos + 1);
      CopiedAt(part, ts, at, pos + 2);
    case Logical(c, l, r) =>
      PairCopied(part, ts, at, pos, dest, c, l, r);
    case Negation(c) =>
      var first := dest + 2;
      SpellsCopied(part, ts, at, pos + 2, first, c);
      NotMarksCopied(part, ts, at, pos, c);
      SpellsNot(ts, dest, first, c);
  }

  lemma {:induction false} PairCopied(part: seq<Token>, ts: seq<Token>, at: nat, pos: nat, dest: nat, c: Connective,
                                      l: Expr, r: Expr)
    requires Copied(part, ts, at) && Spells(part, pos, Logical(c, l, r)) && dest == at + pos
    ensures Spells(ts, dest, Logical(c, l, r))
    decreases Logical(c, l, r), 0
  {
    var first, second := dest + 1, dest + 2 + Width(l);
    var p1, p2 := pos + 1, pos + 2 + Width(l);
    SpelledParts(part, pos, p1, p2, c, l, r);
    SpellsCopied(part, ts, at, p1, first, l);
    SpellsCopied(part, ts, at, p2, second, r);
    PairMarksCopied(part, ts, at, pos, c, l, r);
    SpellsPair(ts, dest, first, second, c, l, r);
  }

  lemma SpelledParts(ts: seq<Token>, pos: nat, first: nat, second: nat, c: Connective, l: Expr, r: Expr)
    requires Spells(ts, pos, Logical(c, l, r)) && first == pos + 1 && second == pos + 2 + Width(l)
    ensures Spells(ts, first, l) && Spells(ts, second, r)
  {
  }

  lemma PairMarksCopied(part: seq<Token>, ts: seq<Token>, at: nat, pos: nat, c: Connective, l: Expr, r: Expr)
    requires Copied(part, ts, at) && Spells(part, pos, Logical(c, l, r))
    ensures var dest := at + pos;
            && dest + 2 + Width(l) + Width(r) < |ts| && ts[dest] == LeftParen
            && ts[dest + 1 + Width(l)] == Word(ConnectiveWord(c)) && ts[dest + 2 + Width(l) + Width(r)] == RightParen
  {
    CopiedAt(part, ts, at, pos);
    CopiedAt(part, ts, at, pos + 1 + Width(l));
    CopiedAt(part, ts, at, pos + 2 + Width(l) + Width(r));
  }

  lemma NotMarksCopied(part: seq<Token>, ts: seq<Token>, at: nat, pos: nat, c: Expr)
    requires Copied(part, ts, at) && Spells(part, pos, Negation(c))
    ensures var dest := at + pos;
            && dest + 2 + Width(c) < |ts| && ts[dest] == Word("NOT") && ts[dest + 1] == LeftParen
            && ts[dest + 2 + Width(c)] == RightParen
  {
    CopiedAt(part, ts, at, pos);
    CopiedAt(part, ts, at, pos + 1);
    CopiedAt(part, ts, at, pos + 2 + Width(c));
  }

  lemma PairCopies(ls: seq<Token>, w: Token, rs: seq<Token>, s: seq<Token>)
    requires s == [LeftParen] + ls + [w] + rs + [RightParen]
    ensures Copied(ls, s, 1) && Copied(rs, s, 2 + |ls|)
    ensures |s| == |ls| + |rs| + 3 && s[0] == LeftParen && s[1 + |ls|] == w && s[2 + |ls| + |rs|] == RightParen
  {
  }

  lemma PairSpells(c: Connective, l: Expr, r: Expr, ls: seq<Token>, rs: seq<Token>, s: seq<Token>)
    requires Spells(ls, 0, l) && |ls| == Width(l) && Spells(rs, 0, r) && |rs| == Width(r)
    requires s == [LeftParen] + ls + [Word(ConnectiveWord(c))] + rs + [RightParen]
    ensures Spells(s, 0, Logical(c, l, r))
  {
    PairCopies(ls, Word(ConnectiveWord(c)), rs, s);
    var first, second := 1, 2 + |ls|;
    SpellsCopied(ls, s, first, 0, first, l);
    SpellsCopied(rs, s, second, 0, second, r);
    SpellsPair(s, 0, first, second, c, l, r);
  }

  lemma SpellsPair(ts: seq<Token>, pos: nat, first: nat, second: nat, c: Connective, l: Expr, r: Expr)
    requires first == pos + 1 && second == pos + 2 + Width(l) && second + Width(r) < |ts|
    requires Spells(ts, first, l) && Spells(ts, second, r)
    requires ts[pos] == LeftParen && ts[second - 1] == Word(ConnectiveWord(c)) && ts[second + Width(r)] == RightParen
    ensures Spells(ts, pos, Logical(c, l, r))
  {
  }

  lemma SpellsNot(ts: seq<Token>, pos: nat, first: nat, c: Expr)
    requires first == pos + 2 && Spells(ts, first, c) && first + Width(c) < |ts|
    requires ts[pos] == Word("NOT") && ts[pos + 1] == LeftParen && ts[first + Width(c)] == RightParen
    ensures Spells(ts, pos, Negation(c))
  {
  }

  lemma NotSpells(c: Expr, cs: seq<Token>, s: seq<Token>)
    requires Spells(cs, 0, c) && |cs| == Width(c) && s == [Word("NOT"), LeftParen] + cs + [RightParen]
    ensures Spells(s, 0, Negation(c))
  {
    assert Copied(cs, s, 2);
    var first := 2;
    SpellsCopied(cs, s, first, 0, first, c);
    SpellsNot(s, 0, first, c);
  }

  /** The written form spells its tree. */
  lemma {:induction false} WrittenSpells(e: Expr)
    ensures Spells(Written(e), 0, e)
  {
    match e
    case Comparison(_, _, _) =>
    case Logical(c, l, r) =>
      WrittenSpells(l);
      WrittenSpells(r);
      WidthIsLength(l);
      WidthIsLength(r);
      PairSpells(c, l, r, Written(l), Written(r), Written(e));
    case Negation(c) =>
      WrittenSpells(c);
      WidthIsLength(c);
      NotSpells(c, Written(c), Written(e));
  }

  /** The token after an operand that lets both loops stop. */
  predicate Stops(t: Token) {
    !IsWord(t, "AND") && !IsWord(t, "OR")
  }

  /** What the parser returns on `e` written at `pos` and depth `depth`. */
  predicate Reads(e: Expr, limit: nat, pos: nat, depth: nat, r: Parsed) {
    if depth + Nest(e) <= limit then r == Parsed(e, pos + Width(e)) else r.Denied?
  }

  lemma StopsAtOr(fields: Fields, limit: nat, ts: seq<Token>, e: Expr, pos: nat, depth: nat)
    requires EndsInput(ts) && pos + Width(e) < |ts| && Stops(ts[pos + Width(e)])
    requires Reads(e, limit, pos, depth, ParseNot(fields, limit, ts, pos, depth))
    ensures Reads(e, limit, pos, depth, ParseAnd(fields, limit, ts, pos, depth))
    ensures Reads(e, limit, pos, depth, ParseOr(fields, limit, ts, pos, depth))
  {
  }

  lemma ReadsAnd(fields: Fields, limit: nat, ts: seq<Token>, l: Expr, r: Expr, pos: nat, mid: nat, end: nat, depth: nat)
    requires EndsInput(ts) && pos < mid && mid + 1 < end < |ts| && IsWord(ts[mid], "AND") && Stops(ts[end])
    requires ParseNot(fields, limit, ts, pos, depth) == Parsed(l, mid)
    requires ParseNot(fields, limit, ts, mid + 1, depth) == Parsed(r, end)
    ensures ParseOr(fields, limit, ts, pos, depth) == Parsed(Logical(And, l, r), end)
  {
    assert AndTail(fields, limit, ts, Logical(And, l, r), end, depth) == Parsed(Logical(And, l, r), end);
    assert AndTail(fields, limit, ts, l, mid, depth) == Parsed(Logical(And, l, r), end);
    assert ParseAnd(fields, limit, ts, pos, depth) == Parsed(Logical(And, l, r), end);
    assert OrTail(fields, limit, ts, Logical(And, l, r), end, depth) == Parsed(Logical(And, l, r), end);
  }

  lemma ReadsOr(fields: Fields, limit: nat, ts: seq<Token>, l: Expr, r: Expr, pos: nat, mid: nat, end: nat, depth: nat)
    requires EndsInput(ts) && pos < mid && mid + 1 < end < |ts| && Stops(ts[end])
    requires IsWord(ts[mid], "OR") && !IsWord(ts[mid], "AND")
    requires ParseNot(fields, limit, ts, pos, depth) == Parsed(l, mid)
    requires ParseNot(fields, limit, ts, mid + 1, depth) == Parsed(r, end)
    ensures ParseOr(fields, limit, ts, pos, depth) == Parsed(Logical(Or, l, r), end)
  {
    assert ParseAnd(fields, limit, ts, pos, depth) == Parsed(l, mid);
    assert ParseAnd(fields, limit, ts, mid + 1, depth) == Parsed(r, end);
    assert OrTail(fields, limit, ts, Logical(Or, l, r), end, depth) == Parsed(Logical(Or, l, r), end);
    assert OrTail(fields, limit, ts, l, mid, depth) == Parsed(Logical(Or, l, r), end);
  }

  /** A refused operand refuses the whole, whichever connective joins it. */
  lemma RefusesLeft(fields: Fields, limit: nat, ts: seq<Token>, pos: nat, depth: nat)
    requires EndsInput(ts) && pos < |ts| && ParseNot(fields, limit, ts, pos, depth).Denied?
    ensures ParseOr(fields, limit, ts, pos, depth).Denied?
  {
    assert ParseAnd(fields, limit, ts, pos, depth).Denied?;
  }

  lemma RefusesRight(fields: Fields, limit: nat, ts: seq<Token>, c: Connective, l: Expr, pos: nat, mid: nat, depth: nat)
    requires EndsInput(ts) && pos < mid < |ts| - 1 && IsWord(ts[mid], ConnectiveWord(c))
             && (c.Or? ==> !IsWord(ts[mid], "AND"))
    requires ParseNot(fields, limit, ts, pos, depth) == Parsed(l, mid)
    requires ParseNot(fields, limit, ts, mid + 1, depth).Denied?
    ensures ParseOr(fields, limit, ts, pos, depth).Denied?
  {
    if c.And? {
      assert AndTail(fields, limit, ts, l, mid, depth).Denied?;
      assert ParseAnd(fields, limit, ts, pos, depth).Denied?;
    } else {
      assert ParseAnd(fields, limit, ts, pos, depth) == Parsed(l, mid);
      assert ParseAnd(fields, limit, ts, mid + 1, depth).Denied?;
      assert OrTail(fields, limit, ts, l, mid, depth).Denied?;
    }
  }

  lemma ConnectiveWords(c: Connective)
    ensures !IsWord(Word(ConnectiveWord(Or)), "AND") && IsWord(Word(ConnectiveWord(c)), ConnectiveWord(c))
    ensures Stops(RightParen) && Stops(Eof)
  {
    KeywordsDiffer();
  }

  /** Two operands and their connective, followed by a closing parenthesis. */
  lemma ReadsPair(fields: Fields, limit: nat, ts: seq<Token>, c: Connective, l: Expr, r: Expr,
                  pos: nat, mid: nat, end: nat, depth: nat, leftFits: bool, rightFits: bool)
    requires EndsInput(ts) && pos < mid && mid + 1 < end < |ts|
    requires ts[mid] == Word(ConnectiveWord(c)) && ts[end] == RightParen
    requires var left := ParseNot(fields, limit, ts, pos, depth);
             if leftFits then left == Parsed(l, mid) else left.Denied?
    requires var right := ParseNot(fields, limit, ts, mid + 1, depth);
             if rightFits then right == Parsed(r, end) else right.Denied?
    ensures var all := ParseOr(fields, limit, ts, pos, depth);
            if leftFits && rightFits then all == Parsed(Logical(c, l, r), end) else all.Denied?
  {
    ConnectiveWords(c);
    if !leftFits {
      RefusesLeft(fields, limit, ts, pos, depth);
    } else if !rightFits {
      RefusesRight(fields, limit, ts, c, l, pos, mid, depth);
    } else if c.And? {
      ReadsAnd(fields, limit, ts, l, r, pos, mid, end, depth);
    } else {
      ReadsOr(fields, limit, ts, l, r, pos, mid, end, depth);
    }
  }

  lemma ReadsParen(fields: Fields, limit: nat, ts: seq<Token>, pos: nat, depth: nat)
    requires EndsInput(ts) && pos + 1 < |ts| && ts[pos].LeftParen?
    ensures var r := ParseNot(fields, limit, ts, pos, depth);
            var inner := ParseOr(fields, limit, ts, pos + 1, depth + 1);
            if depth + 1 <= limit && inner.Parsed? && ts[inner.next].RightParen?
            then r == Parsed(inner.expr, inner.next + 1)
            else r.Denied?
  {
  }

  lemma ReadsNot(fields: Fields, limit: nat, ts: seq<Token>, pos: nat, depth: nat)
    requires EndsInput(ts) && pos + 1 < |ts| && ts[pos] == Word("NOT")
    ensures var r := ParseNot(fields, limit, ts, pos, depth);
            var inner := ParseNot(fields, limit, ts, pos + 1, depth + 1);
            if depth + 1 <= limit && inner.Parsed? then r == Parsed(Negation(inner.expr), inner.next) else r.Denied?
  {
  }

  /** The written form of a good tree is read as that tree, exactly when its nesting fits. */
  lemma {:induction false} WrittenParses(fields: Fields, limit: nat, ts: seq<Token>, e: Expr, pos: nat, depth: nat)
    requires EndsInput(ts) && Good(fields, e) && Spells(ts, pos, e) && pos + Width(e) < |ts| && depth <= limit
    ensures Reads(e, limit, pos, depth, ParseNot(fields, limit, ts, pos, depth))
    decreases e
  {
    match e
    case Comparison(field, op, value) =>
      ComparisonParses(fields, limit, ts, e, pos, depth);
    case Logical(c, l, r) =>
      if depth < limit {
        InsideParses(fields, limit, ts, c, l, r, pos, depth);
      }
      ReadsParen(fields, limit, ts, pos, depth);
    case Negation(c) =>
      NegationParses(fields, limit, ts, c, pos, depth);
  }

  lemma {:induction false} InsideParses(fields: Fields, limit: nat, ts: seq<Token>, c: Connective, l: Expr, r: Expr,
                                        pos: nat, depth: nat)
    requires EndsInput(ts) && Good(fields, l) && Good(fields, r) && depth < limit
    requires Spells(ts, pos, Logical(c, l, r)) && pos + Width(Logical(c, l, r)) < |ts|
    ensures var all := ParseOr(fields, limit, ts, pos + 1, depth + 1);
            if depth + Nest(Logical(c, l, r)) <= limit
            then all == Parsed(Logical(c, l, r), pos + Width(Logical(c, l, r)) - 1)
            else all.Denied?
    decreases Logical(c, l, r), 1
  {
    LeftReads(fields, limit, ts, c, l, r, pos, depth);
    RightReads(fields, limit, ts, c, l, r, pos, depth);
    InsideReads(fields, limit, ts, c, l, r, pos + 1, depth + 1);
  }

  lemma {:induction false} LeftReads(fields: Fields, limit: nat, ts: seq<Token>, c: Connective, l: Expr, r: Expr,
                                     pos: nat, depth: nat)
    requires EndsInput(ts) && Good(fields, l) && Good(fields, r) && depth < limit
    requires Spells(ts, pos, Logical(c, l, r)) && pos + Width(Logical(c, l, r)) < |ts|
    ensures Reads(l, limit, pos + 1, depth + 1, ParseNot(fields, limit, ts, pos + 1, depth + 1))
    decreases Logical(c, l, r), 0
  {
    WrittenParses(fields, limit, ts, l, pos + 1, depth + 1);
  }

  lemma {:induction false} RightReads(fields: Fields, limit: nat, ts: seq<Token>, c: Connective, l: Expr, r: Expr,
                                      pos: nat, depth: nat)
    requires EndsInput(ts) && Good(fields, l) && Good(fields, r) && depth < limit
    requires Spells(ts, pos, Logical(c, l, r)) && pos + Width(Logical(c, l, r)) < |ts|
    ensures Reads(r, limit, pos + 2 + Width(l), depth + 1, ParseNot(fields, limit, ts, pos + 2 + Width(l), depth + 1))
    decreases Logical(c, l, r), 0
  {
    WrittenParses(fields, limit, ts, r, pos + 2 + Width(l), depth + 1);
  }

  lemma InsideReads(fields: Fields, limit: nat, ts: seq<Token>, c: Connective, l: Expr, r: Expr, pos: nat, depth: nat)
    requires EndsInput(ts) && pos + Width(l) + 1 + Width(r) < |ts|
    requires ts[pos + Width(l)] == Word(ConnectiveWord(c)) && ts[pos + Width(l) + 1 + Width(r)] == RightParen
    requires Reads(l, limit, pos, depth, ParseNot(fields, limit, ts, pos, depth))
    requires Reads(r, limit, pos + Width(l) + 1, depth, ParseNot(fields, limit, ts, pos + Width(l) + 1, depth))
    ensures var all := ParseOr(fields, limit, ts, pos, depth);
            if depth + Nest(l) <= limit && depth + Nest(r) <= limit
            then all == Parsed(Logical(c, l, r), pos + Width(l) + 1 + Width(r))
            else all.Denied?
  {
    var mid := pos + Width(l);
    ReadsPair(fields, limit, ts, c, l, r, pos, mid, mid + 1 + Width(r), depth,
              depth + Nest(l) <= limit, depth + Nest(r) <= limit);
  }

  lemma {:induction false} NegationParses(fields: Fields, limit: nat, ts: seq<Token>, c: Expr, pos: nat, depth: nat)
    requires EndsInput(ts) && Good(fields, c) && Spells(ts, pos, Negation(c))
    requires pos + Width(Negation(c)) < |ts| && depth <= limit
    ensures Reads(Negation(c), limit, pos, depth, ParseNot(fields, limit, ts, pos, depth))
    decreases Negation(c), 0
  {
    if depth + 2 <= limit {
      WrittenParses(fields, limit, ts, c, pos + 2, depth + 2);
      ConnectiveWords(And);
      StopsAtOr(fields, limit, ts, c, pos + 2, depth + 2);
    }
    ReadsParen(fields, limit, ts, pos + 1, depth + 1);
    ReadsNot(fields, limit, ts, pos, depth);
  }

  lemma ComparisonParses(fields: Fields, limit: nat, ts: seq<Token>, e: Expr, pos: nat, depth: nat)
    requires EndsInput(ts) && e.Comparison? && GoodComparison(fields, e) && Spells(ts, pos, e) && pos + 3 < |ts|
    ensures ParseNot(fields, limit, ts, pos, depth) == Parsed(e, pos + 3)
  {
    KeywordsDiffer();
    assert Literal(fields[Lower(e.field)].kind, LiteralToken(e.value)) == Some(e.value);
  }

  /** A written tree is a whole WHERE clause. */
  lemma WrittenIsWhole(fields: Fields, limit: nat, e: Expr)
    requires Good(fields, e)
    ensures var again := ParseWhere(fields, limit, Written(e) + [Eof]);
            if Nest(e) <= limit then again == Ok(e) else again.Err?
  {
    var ts := Written(e) + [Eof];
    WidthIsLength(e);
    WrittenSpells(e);
    SpellsCopied(Written(e), ts, 0, 0, 0, e);
    assert Reads(e, limit, 0, 0, ParseOr(fields, limit, ts, 0, 0)) by {
      WrittenParses(fields, limit, ts, e, 0, 0);
      ConnectiveWords(And);
      StopsAtOr(fields, limit, ts, e, 0, 0);
    }
  }
}
