/** The precedence parser for WHERE expressions, with its depth counter. */
module EsqlParser {
  import opened EsqlSyntax
  import opened Wrappers

  datatype Parsed = Parsed(expr: Expr, next: nat) | Denied(reason: string)

  /** The limit the compiler uses; the functions below take it as a parameter. */
  const MAXIMUM_DEPTH := 16

  predicate EndsInput(ts: seq<Token>) {
    ts != [] && ts[|ts| - 1].Eof?
  }

  function Literal(kind: Kind, t: Token): Option<Value> {
    match kind
    case IntegerKind => if t.Integer? then Some(IntegerValue(t.integer)) else None
    case BooleanKind =>
      if IsWord(t, "true") then Some(BooleanValue(true))
      else if IsWord(t, "false") then Some(BooleanValue(false))
      else None
    case _ => if t.Text? then Some(TextValue(t.value)) else None
  }

  predicate Filterable(fields: Fields, name: string) {
    Lower(name) in fields && fields[Lower(name)].filterable && name == fields[Lower(name)].name
  }

  function ParseComparison(fields: Fields, ts: seq<Token>, pos: nat): (r: Parsed)
    requires EndsInput(ts) && pos < |ts|
    ensures r.Parsed? ==> pos < r.next < |ts|
  {
    if !ts[pos].Word? then Denied("esql_comparison_field_required")
    else if !Filterable(fields, ts[pos].text) then Denied("esql_filter_field_denied")
    else if !ts[pos + 1].Operator? then Denied("esql_comparison_operator_required")
    else
      var value := Literal(fields[Lower(ts[pos].text)].kind, ts[pos + 2]);
      if value.None? then Denied("esql_literal_type_mismatch")
      else Parsed(Comparison(ts[pos].text, ts[pos + 1].op, value.value), pos + 3)
  }

  function ParseNot(fields: Fields, limit: nat, ts: seq<Token>, pos: nat, depth: nat): (r: Parsed)
    requires EndsInput(ts) && pos < |ts|
    ensures r.Parsed? ==> pos < r.next < |ts|
    decreases |ts| - pos, 0
  {
    if IsWord(ts[pos], "NOT") then
      if depth + 1 > limit then Denied("esql_expression_depth")
      else
        var child := ParseNot(fields, limit, ts, pos + 1, depth + 1);
        if child.Denied? then child else Parsed(Negation(child.expr), child.next)
    else if ts[pos].LeftParen? then
      if depth + 1 > limit then Denied("esql_expression_depth")
      else
        var child := ParseOr(fields, limit, ts, pos + 1, depth + 1);
        if child.Denied? || !ts[child.next].RightParen? then Denied("esql_parentheses_invalid")
        else Parsed(child.expr, child.next + 1)
    else ParseComparison(fields, ts, pos)
  }

  function ParseAnd(fields: Fields, limit: nat, ts: seq<Token>, pos: nat, depth: nat): (r: Parsed)
    requires EndsInput(ts) && pos < |ts|
    ensures r.Parsed? ==> pos < r.next < |ts|
    decreases |ts| - pos, 2
  {
    var left := ParseNot(fields, limit, ts, pos, depth);
    if left.Denied? then left else AndTail(fields, limit, ts, left.expr, left.next, depth)
  }

  /** The loop of `andExpression`: fold further operands onto the left. */
  function AndTail(fields: Fields, limit: nat, ts: seq<Token>, left: Expr, pos: nat, depth: nat): (r: Parsed)
    requires EndsInput(ts) && pos < |ts|
    ensures r.Parsed? ==> pos <= r.next < |ts|
    decreases |ts| - pos, 1
  {
    if !IsWord(ts[pos], "AND") then Parsed(left, pos)
    else
      var right := ParseNot(fields, limit, ts, pos + 1, depth);
      if right.Denied? then right else AndTail(fields, limit, ts, Logical(And, left, right.expr), right.next, depth)
  }

  function ParseOr(fields: Fields, limit: nat, ts: seq<Token>, pos: nat, depth: nat): (r: Parsed)
    requires EndsInput(ts) && pos < |ts|
    ensures r.Parsed? ==> pos < r.next < |ts|
    decreases |ts| - pos, 4
  {
    var left := ParseAnd(fields, limit, ts, pos, depth);
    if left.Denied? then left else OrTail(fields, limit, ts, left.expr, left.next, depth)
  }

  function OrTail(fields: Fields, limit: nat, ts: seq<Token>, left: Expr, pos: nat, depth: nat): (r: Parsed)
    requires EndsInput(ts) && pos < |ts|
    ensures r.Parsed? ==> pos <= r.next < |ts|
    decreases |ts| - pos, 3
  {
    if !IsWord(ts[pos], "OR") then Parsed(left, pos)
    else
      var right := ParseAnd(fields, limit, ts, pos + 1, depth);
      if right.Denied? then right else OrTail(fields, limit, ts, Logical(Or, left, right.expr), right.next, depth)
  }

  /** A whole WHERE clause: the expression must end where the input ends. */
  function ParseWhere(fields: Fields, limit: nat, ts: seq<Token>): Result<Expr>
    requires EndsInput(ts)
  {
    var r := ParseOr(fields, limit, ts, 0, 0);
    if r.Denied? then Err(r.reason)
    else if !ts[r.next].Eof? then Err("esql_command_trailing_input")
    else Ok(r.expr)
  }

  /** The parser object: a token position and a nesting depth that every method moves. */
  class Parser {
    const tokens: seq<Token>
    const fields: Fields
    var position: nat
    var depth: nat

    constructor (ts: seq<Token>, fs: Fields)
      requires EndsInput(ts)
      ensures tokens == ts && fields == fs && position == 0 && depth == 0
    {
      tokens, fields, position, depth := ts, fs, 0, 0;
    }

    ghost predicate Ready()
      reads this
    {
      EndsInput(tokens) && position < |tokens|
    }

    /** On success the position and the tree are the function's, and the depth is as it was. */
    twostate predicate Agrees(new r: Result<Expr>, p: Parsed)
      reads this
    {
      match p
      case Parsed(expr, next) => r == Ok(expr) && position == next && depth == old(depth)
      case Denied(reason) => r == Err(reason) && depth >= old(depth)
    }

    method ConsumeWord(keyword: string) returns (found: bool)
      requires Ready()
      modifies this`position
      ensures found == IsWord(tokens[old(position)], keyword)
      ensures position == old(position) + (if found then 1 else 0) && Ready()
    {
      found := IsWord(tokens[position], keyword);
      if found {
        position := position + 1;
      }
    }

    method OrExpression() returns (r: Result<Expr>)
      requires Ready()
      modifies this
      ensures Agrees(r, ParseOr(fields, MAXIMUM_DEPTH, tokens, old(position), old(depth)))
      decreases |tokens| - position, 4
    {
      r := AndExpression();
      if r.Err? {
        return;
      }
      while true
        invariant Ready() && r.Ok? && depth == old(depth) && position > old(position)
        invariant OrTail(fields, MAXIMUM_DEPTH, tokens, r.value, position, depth)
               == ParseOr(fields, MAXIMUM_DEPTH, tokens, old(position), old(depth))
        decreases |tokens| - position
      {
        var more := ConsumeWord("OR");
        if !more {
          return;
        }
        var right := AndExpression();
        if right.Err? {
          return right;
        }
        r := Ok(Logical(Or, r.value, right.value));
      }
    }

    method AndExpression() returns (r: Result<Expr>)
      requires Ready()
      modifies this
      ensures Agrees(r, ParseAnd(fields, MAXIMUM_DEPTH, tokens, old(position), old(depth)))
      decreases |tokens| - position, 2
    {
      r := NotExpression();
      if r.Err? {
        return;
      }
      while true
        invariant Ready() && r.Ok? && depth == old(depth) && position > old(position)
        invariant AndTail(fields, MAXIMUM_DEPTH, tokens, r.value, position, depth)
               == ParseAnd(fields, MAXIMUM_DEPTH, tokens, old(position), old(depth))
        decreases |tokens| - position
      {
        var more := ConsumeWord("AND");
        if !more {
          return;
        }
        var right := NotExpression();
        if right.Err? {
          return right;
        }
        r := Ok(Logical(And, r.value, right.value));
      }
    }

    method NotExpression() returns (r: Result<Expr>)
      requires Ready()
      modifies this
      ensures Agrees(r, ParseNot(fields, MAXIMUM_DEPTH, tokens, old(position), old(depth)))
      decreases |tokens| - position, 0
    {
      var negated := ConsumeWord("NOT");
      if negated {
        depth := depth + 1;
        if depth > MAXIMUM_DEPTH {
          return Err("esql_expression_depth");
        }
        r := NotExpression();
        depth := depth - 1;
        if r.Ok? {
          r := Ok(Negation(r.value));
        }
        return;
      }
      if tokens[position].LeftParen? {
        position := position + 1;
        depth := depth + 1;
        if depth > MAXIMUM_DEPTH {
          return Err("esql_expression_depth");
        }
        r := OrExpression();
        depth := depth - 1;
        if r.Err? || !tokens[position].RightParen? {
          return Err("esql_parentheses_invalid");
        }
        position := position + 1;
        return;
      }
      r := ComparisonExpression();
    }

    method ComparisonExpression() returns (r: Result<Expr>)
      requires Ready()
      modifies this`position
      ensures Agrees(r, ParseComparison(fields, tokens, old(position)))
    {
      if !tokens[position].Word? {
        return Err("esql_comparison_field_required");
      }
      var name := tokens[position].text;
      position := position + 1;
      if !Filterable(fields, name) {
        return Err("esql_filter_field_denied");
      }
      if !tokens[position].Operator? {
        return Err("esql_comparison_operator_required");
      }
      var op := tokens[position].op;
      position := position + 1;
      var value := Literal(fields[Lower(name)].kind, tokens[position]);
      if value.None? {
        return Err("esql_literal_type_mismatch");
      }
      position := position + 1;
      r := Ok(Comparison(name, op, value.value));
    }
  }
}
