/**
 * The ES|QL printer: `canonicalExpression` writes a WHERE tree as vendor text with `?` marks
 * and lifts the literals into positional parameters. Reading that text back gives the tree.
 */
module EsqlPrinter {
  import opened EsqlSyntax
  import opened Decimal
  import opened EsqlLexer
  import opened EsqlParser
  import opened Wrappers

  const MAXIMUM_PARAMETERS := 256

  datatype Parameter = Parameter(kind: Kind, value: Value)

  /** Library checks: which texts are IP addresses, and the normal form of a UTC timestamp. */
  datatype Library = Library(isIp: string -> bool, utc: string -> Option<string>)

  datatype Printed = Printed(text: string, parameters: seq<Parameter>)

  // ----- field definitions

  predicate IsFieldName(s: string) {
    s != "" && 'a' <= s[0] <= 'z' && forall c <- s :: 'a' <= c <= 'z' || IsDigit(c) || c == '_' || c == '.' || c == '-'
  }

  predicate IsVendorName(s: string) {
    s != "" && IsWordStart(s[0]) && forall c <- s :: IsWordContinue(c)
  }

  /** What the definition check promises about the configured fields. */
  ghost predicate ValidFields(fs: seq<FieldRule>) {
    && (forall f <- fs :: IsFieldName(f.name) && IsVendorName(f.vendorName))
    && (forall i, j | 0 <= i < j < |fs| :: fs[i].name != fs[j].name && fs[i].vendorName != fs[j].vendorName)
  }

  /** The parser's table: later fields replace earlier ones of the same lower-case name. */
  function Table(fs: seq<FieldRule>): Fields {
    if fs == [] then map[] else Table(fs[..|fs| - 1])[Lower(fs[|fs| - 1].name) := fs[|fs| - 1]]
  }

  /** The compiler's linear search by logical name, and the same search by vendor name. */
  function FieldNamed(fs: seq<FieldRule>, name: string): Option<FieldRule> {
    if fs == [] then None else if fs[0].name == name then Some(fs[0]) else FieldNamed(fs[1..], name)
  }

  function FieldForVendor(fs: seq<FieldRule>, vendor: string): Option<FieldRule> {
    if fs == [] then None else if fs[0].vendorName == vendor then Some(fs[0]) else FieldForVendor(fs[1..], vendor)
  }

  lemma {:induction false} FieldNamedIn(fs: seq<FieldRule>, f: FieldRule)
    requires ValidFields(fs) && f in fs
    ensures FieldNamed(fs, f.name) == Some(f) && FieldForVendor(fs, f.vendorName) == Some(f)
  {
    if fs[0] != f {
      var i :| 0 <= i < |fs| && fs[i] == f;
      assert fs[0].name != fs[i].name && fs[0].vendorName != fs[i].vendorName;
      assert fs[1..][i - 1] == f;
      FieldNamedIn(fs[1..], f);
    }
  }

  lemma {:induction false} TableHolds(fs: seq<FieldRule>, key: string)
    requires ValidFields(fs)
    ensures key in Table(fs) ==> Table(fs)[key] in fs && key == Table(fs)[key].name
  {
    if fs != [] {
      var last := fs[|fs| - 1];
      assert last in fs && IsFieldName(last.name);
      LowerFixed(last.name);
      TableHolds(fs[..|fs| - 1], key);
    }
  }

  // ----- trees the parser accepts

  predicate Typed(kind: Kind, value: Value) {
    match kind
    case IntegerKind => value.IntegerValue?
    case BooleanKind => value.BooleanValue?
    case _ => value.TextValue?
  }

  predicate GoodComparison(fields: Fields, e: Expr)
    requires e.Comparison?
  {
    Filterable(fields, e.field) && Typed(fields[Lower(e.field)].kind, e.value) && Lower(e.field) != "not"
  }

  /** Every comparison names a filterable field, has a value of its type and is not named NOT. */
  predicate Good(fields: Fields, e: Expr) {
    match e
    case Comparison(_, _, _) => GoodComparison(fields, e)
    case Logical(_, l, r) => Good(fields, l) && Good(fields, r)
    case Negation(c) => Good(fields, c)
  }

  lemma {:induction false} ParsedNotIsGood(fields: Fields, limit: nat, ts: seq<Token>, pos: nat, depth: nat)
    requires EndsInput(ts) && pos < |ts|
    ensures var r := ParseNot(fields, limit, ts, pos, depth); r.Parsed? ==> Good(fields, r.expr)
    decreases |ts| - pos, 0
  {
    KeywordsDiffer();
    if IsWord(ts[pos], "NOT") {
      ParsedNotIsGood(fields, limit, ts, pos + 1, depth + 1);
    } else if ts[pos].LeftParen? {
      ParsedOrIsGood(fields, limit, ts, pos + 1, depth + 1);
    }
  }

  lemma {:induction false} ParsedAndIsGood(fields: Fields, limit: nat, ts: seq<Token>, pos: nat, depth: nat)
    requires EndsInput(ts) && pos < |ts|
    ensures var r := ParseAnd(fields, limit, ts, pos, depth); r.Parsed? ==> Good(fields, r.expr)
    decreases |ts| - pos, 2
  {
    ParsedNotIsGood(fields, limit, ts, pos, depth);
    var left := ParseNot(fields, limit, ts, pos, depth);
    if left.Parsed? {
      AndTailIsGood(fields, limit, ts, left.expr, left.next, depth);
    }
  }

  lemma {:induction false} AndTailIsGood(fields: Fields, limit: nat, ts: seq<Token>, left: Expr, pos: nat, depth: nat)
    requires EndsInput(ts) && pos < |ts| && Good(fields, left)
    ensures var r := AndTail(fields, limit, ts, left, pos, depth); r.Parsed? ==> Good(fields, r.expr)
    decreases |ts| - pos, 1
  {
    if IsWord(ts[pos], "AND") {
      ParsedNotIsGood(fields, limit, ts, pos + 1, depth);
      var right := ParseNot(fields, limit, ts, pos + 1, depth);
      if right.Parsed? {
        AndTailIsGood(fields, limit, ts, Logical(And, left, right.expr), right.next, depth);
      }
    }
  }

  lemma {:induction false} ParsedOrIsGood(fields: Fields, limit: nat, ts: seq<Token>, pos: nat, depth: nat)
    requires EndsInput(ts) && pos < |ts|
    ensures var r := ParseOr(fields, limit, ts, pos, depth); r.Parsed? ==> Good(fields, r.expr)
    decreases |ts| - pos, 4
  {
    ParsedAndIsGood(fields, limit, ts, pos, depth);
    var left := ParseAnd(fields, limit, ts, pos, depth);
    if left.Parsed? {
      OrTailIsGood(fields, limit, ts, left.expr, left.next, depth);
    }
  }

  lemma {:induction false} OrTailIsGood(fields: Fields, limit: nat, ts: seq<Token>, left: Expr, pos: nat, depth: nat)
    requires EndsInput(ts) && pos < |ts| && Good(fields, left)
    ensures var r := OrTail(fields, limit, ts, left, pos, depth); r.Parsed? ==> Good(fields, r.expr)
    decreases |ts| - pos, 3
  {
    if IsWord(ts[pos], "OR") {
      ParsedAndIsGood(fields, limit, ts, pos + 1, depth);
      var right := ParseAnd(fields, limit, ts, pos + 1, depth);
      if right.Parsed? {
        OrTailIsGood(fields, limit, ts, Logical(Or, left, right.expr), right.next, depth);
      }
    }
  }

  /** Whatever the parser accepts is well typed and never mentions a field spelled like NOT. */
  lemma AcceptedIsGood(fields: Fields, limit: nat, ts: seq<Token>)
    requires EndsInput(ts) && ParseWhere(fields, limit, ts).Ok?
    ensures Good(fields, ParseWhere(fields, limit, ts).value)
  {
    ParsedOrIsGood(fields, limit, ts, 0, 0);
  }

  // ----- printing

  function OpText(op: CompareOp): string {
    match op
    case Equal => "=="
    case NotEqual => "!="
    case Less => "<"
    case LessEqual => "<="
    case Greater => ">"
    case GreaterEqual => ">="
  }

  function TypedParameter(lib: Library, kind: Kind, value: Value): Result<Parameter> {
    match kind
    case IpKind =>
      if value.TextValue? && lib.isIp(value.text) then Ok(Parameter(kind, value)) else Err("esql_ip_invalid")
    case TimestampKind =>
      if value.TextValue? && lib.utc(value.text).Some? then Ok(Parameter(kind, TextValue(lib.utc(value.text).value)))
      else Err("esql_timestamp_invalid")
    case _ => Ok(Parameter(kind, value))
  }

  /** `canonicalExpression`, with the parameters already lifted passed in and out. */
  function Print(fs: seq<FieldRule>, lib: Library, e: Expr, parameters: seq<Parameter>): Result<Printed> {
    if |parameters| >= MAXIMUM_PARAMETERS then Err("esql_parameter_limit")
    else match e
      case Comparison(field, op, value) =>
        var rule := FieldNamed(fs, field);
        if rule.None? then Err("esql_literal_type_unsupported")
        else
          var parameter := TypedParameter(lib, rule.value.kind, value);
          if parameter.Err? then Err(parameter.reason)
          else Ok(Printed(rule.value.vendorName + " " + OpText(op) + " ?", parameters + [parameter.value]))
      case Logical(connective, l, r) =>
        var left := Print(fs, lib, l, parameters);
        if left.Err? then left
        else
          var right := Print(fs, lib, r, left.value.parameters);
          if right.Err? then right
          else Ok(Printed("(" + left.value.text + " " + ConnectiveWord(connective) + " " + right.value.text + ")",
                          right.value.parameters))
      case Negation(c) =>
        var child := Print(fs, lib, c, parameters);
        if child.Err? then child else Ok(Printed("NOT (" + child.value.text + ")", child.value.parameters))
  }

  /** The printer with its shared parameter list, appended to while the tree is walked. */
  class Printer {
    const fields: seq<FieldRule>
    const lib: Library
    var parameters: seq<Parameter>

    constructor (fs: seq<FieldRule>, l: Library)
      ensures fields == fs && lib == l && parameters == []
    {
      fields, lib, parameters := fs, l, [];
    }

    method CanonicalExpression(e: Expr) returns (r: Result<string>)
      modifies this
      ensures var p := Print(fields, lib, e, old(parameters));
              if p.Ok? then r == Ok(p.value.text) && parameters == p.value.parameters else r == Err(p.reason)
      decreases e
    {
      if |parameters| >= MAXIMUM_PARAMETERS {
        return Err("esql_parameter_limit");
      }
      match e
      case Comparison(field, op, value) =>
        var rule := FieldNamed(fields, field);
        if rule.None? {
          return Err("esql_literal_type_unsupported");
        }
        var parameter := TypedParameter(lib, rule.value.kind, value);
        if parameter.Err? {
          return Err(parameter.reason);
        }
        parameters := parameters + [parameter.value];
        r := Ok(rule.value.vendorName + " " + OpText(op) + " ?");
      case Logical(connective, left, right) =>
        var l := CanonicalExpression(left);
        if l.Err? {
          return l;
        }
        var rr := CanonicalExpression(right);
        if rr.Err? {
          return rr;
        }
        r := Ok("(" + l.value + " " + ConnectiveWord(connective) + " " + rr.value + ")");
      case Negation(child) =>
        var c := CanonicalExpression(child);
        if c.Err? {
          return c;
        }
        r := Ok("NOT (" + c.value + ")");
    }
  }

  // ----- an independent account of what is printed

  /** The comparisons of a tree from left to right. */
  function Comparisons(e: Expr): (cs: seq<Expr>)
    ensures cs != [] && forall c <- cs :: c.Comparison?
  {
    match e
    case Comparison(_, _, _) => [e]
    case Logical(_, l, r) => Comparisons(l) + Comparisons(r)
    case Negation(c) => Comparisons(c)
  }

  function ParameterOf(fs: seq<FieldRule>, lib: Library, c: Expr): Result<Parameter>
    requires c.Comparison?
  {
    var rule := FieldNamed(fs, c.field);
    if rule.None? then Err("esql_literal_type_unsupported") else TypedParameter(lib, rule.value.kind, c.value)
  }

  /** Every literal passes its type's check. */
  predicate Printable(fs: seq<FieldRule>, lib: Library, e: Expr) {
    forall c <- Comparisons(e) :: ParameterOf(fs, lib, c).Ok?
  }

  function ParametersOf(fs: seq<FieldRule>, lib: Library, cs: seq<Expr>): (ps: seq<Parameter>)
    requires forall c <- cs :: c.Comparison? && ParameterOf(fs, lib, c).Ok?
    ensures |ps| == |cs| && forall k | 0 <= k < |cs| :: ps[k] == ParameterOf(fs, lib, cs[k]).value
  {
    seq(|cs|, k requires 0 <= k < |cs| => ParameterOf(fs, lib, cs[k]).value)
  }

  /** The tokens of the vendor text. */
  function VendorTokens(fs: seq<FieldRule>, e: Expr): seq<Token> {
    match e
    case Comparison(field, op, _) =>
      var rule := FieldNamed(fs, field);
      [Word(if rule.None? then "" else rule.value.vendorName), Operator(op), Mark]
    case Logical(connective, l, r) =>
      [LeftParen] + VendorTokens(fs, l) + [Word(ConnectiveWord(connective))] + VendorTokens(fs, r) + [RightParen]
    case Negation(c) => [Word("NOT"), LeftParen] + VendorTokens(fs, c) + [RightParen]
  }

  /** When the parameter limit and the type checks let a tree through, and with which parameters. */
  lemma {:induction false} PrintSucceeds(fs: seq<FieldRule>, lib: Library, e: Expr, ps: seq<Parameter>)
    ensures Print(fs, lib, e, ps).Ok? <==> Printable(fs, lib, e) && |ps| + |Comparisons(e)| <= MAXIMUM_PARAMETERS
    ensures Print(fs, lib, e, ps).Ok? ==>
            Print(fs, lib, e, ps).value.parameters == ps + ParametersOf(fs, lib, Comparisons(e))
    ensures Printable(fs, lib, e) && Print(fs, lib, e, ps).Err? ==>
            Print(fs, lib, e, ps).reason == "esql_parameter_limit"
  {
    match e
    case Comparison(_, _, _) =>
      assert e in Comparisons(e);
    case Logical(_, l, r) =>
      PrintSucceeds(fs, lib, l, ps);
      assert Printable(fs, lib, e) <==> Printable(fs, lib, l) && Printable(fs, lib, r) by {
        PrintableSplits(fs, lib, l, r, Comparisons(e));
      }
      var left := Print(fs, lib, l, ps);
      if left.Ok? {
        PrintSucceeds(fs, lib, r, left.value.parameters);
        if Printable(fs, lib, r) {
          ParametersConcat(fs, lib, Comparisons(l), Comparisons(r), ps);
        }
      }
    case Negation(c) =>
      PrintSucceeds(fs, lib, c, ps);
  }

  lemma PrintableSplits(fs: seq<FieldRule>, lib: Library, l: Expr, r: Expr, all: seq<Expr>)
    requires all == Comparisons(l) + Comparisons(r)
    ensures (forall c <- all :: c.Comparison? && ParameterOf(fs, lib, c).Ok?) <==>
            Printable(fs, lib, l) && Printable(fs, lib, r)
  {
    if forall c <- all :: c.Comparison? && ParameterOf(fs, lib, c).Ok? {
      forall c | c in Comparisons(l) || c in Comparisons(r) ensures ParameterOf(fs, lib, c).Ok? {
        assert c in all;
      }
    }
  }

  lemma ParametersConcat(fs: seq<FieldRule>, lib: Library, a: seq<Expr>, b: seq<Expr>, ps: seq<Parameter>)
    requires forall c <- a :: c.Comparison? && ParameterOf(fs, lib, c).Ok?
    requires forall c <- b :: c.Comparison? && ParameterOf(fs, lib, c).Ok?
    ensures forall c <- a + b :: c.Comparison? && ParameterOf(fs, lib, c).Ok?
    ensures ps + ParametersOf(fs, lib, a) + ParametersOf(fs, lib, b) == ps + ParametersOf(fs, lib, a + b)
  {
  }

  /** The parameter limit denies exactly the trees with more than 256 comparisons. */
  lemma LimitIsOnComparisons(fs: seq<FieldRule>, lib: Library, e: Expr)
    requires Printable(fs, lib, e)
    ensures Print(fs, lib, e, []) == Err("esql_parameter_limit") <==> |Comparisons(e)| > 256
    ensures Print(fs, lib, e, []).Ok? <==> |Comparisons(e)| <= 256
  {
    PrintSucceeds(fs, lib, e, []);
  }
}
