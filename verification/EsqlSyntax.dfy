/** Tokens, expression trees and field rules of the ES|QL subset. */
module EsqlSyntax {

  datatype CompareOp = Equal | NotEqual | Less | LessEqual | Greater | GreaterEqual

  datatype Value = IntegerValue(integer: int) | BooleanValue(flag: bool) | TextValue(text: string)

  /** `Mark` is the `?` of a printed pipeline; the tokenizer never produces it from a query. */
  datatype Token =
    | Word(text: string)
    | Text(value: string)
    | Integer(integer: int)
    | Pipe
    | Comma
    | LeftParen
    | RightParen
    | Operator(op: CompareOp)
    | Mark
    | Eof

  datatype Kind = StringKind | IntegerKind | BooleanKind | TimestampKind | IpKind

  datatype FieldRule = FieldRule(name: string, vendorName: string, kind: Kind, filterable: bool)

  /** The parser's field table, keyed by the lower-case name. */
  type Fields = map<string, FieldRule>

  datatype Connective = And | Or

  datatype Expr =
    | Comparison(field: string, op: CompareOp, value: Value)
    | Logical(connective: Connective, left: Expr, right: Expr)
    | Negation(child: Expr)

  function LowerChar(c: char): char {
    if 'A' <= c <= 'Z' then (c as int + 32) as char else c
  }

  function Lower(s: string): (r: string)
    ensures |r| == |s|
  {
    if s == "" then "" else [LowerChar(s[0])] + Lower(s[1..])
  }

  /** The case-blind keyword test. */
  predicate IsWord(t: Token, keyword: string) {
    t.Word? && Lower(t.text) == Lower(keyword)
  }

  function ConnectiveWord(c: Connective): string {
    if c.And? then "AND" else "OR"
  }

  lemma KeywordsDiffer()
    ensures Lower("AND") == "and" && Lower("OR") == "or" && Lower("NOT") == "not"
    ensures Lower("true") == "true" && Lower("false") == "false"
  {
    LowerOfThree('A', 'N', 'D');
    LowerOfThree('N', 'O', 'T');
    assert "OR" == ['O'] + ['R'] && "OR"[1..] == ['R'] && ['R'][1..] == "";
    assert Lower("OR") == ['o'] + Lower(['R']) && Lower(['R']) == ['r'] + Lower("");
    LowerFixed("true");
    LowerFixed("false");
  }

  lemma LowerOfThree(a: char, b: char, c: char)
    ensures Lower([a, b, c]) == [LowerChar(a), LowerChar(b), LowerChar(c)]
  {
    assert [a, b, c][1..] == [b, c] && [b, c][1..] == [c] && [c][1..] == "";
    assert Lower([c]) == [LowerChar(c)] + Lower("");
    assert Lower([b, c]) == [LowerChar(b)] + Lower([c]);
  }

  lemma {:induction false} LowerFixed(s: string)
    requires forall c <- s :: !('A' <= c <= 'Z')
    ensures Lower(s) == s
  {
    if s != "" {
      assert s[0] in s && forall c <- s[1..] :: c in s;
      LowerFixed(s[1..]);
    }
  }
}
