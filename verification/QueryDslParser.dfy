/** Parsing Query DSL JSON into a query tree, with its clause counter and depth limit. */
module QueryDslParser {
  import opened Decimal
  import opened QueryDslSyntax
  import opened Sorting
  import opened Wrappers

  /** How deep a query may nest and how many clauses it may have in all. */
  datatype Limits = Limits(depth: nat, clauses: nat)

  const MAXIMUM_CLAUSES := 1024
  const MAXIMUM_TERMS := 256
  const SOURCE_LIMITS := Limits(16, MAXIMUM_CLAUSES)

  /** A tree and the clauses counted so far, or the reason of a denial. */
  datatype Parsed = Parsed(node: Node, clauses: nat) | Denied(reason: string)
  datatype ParsedList = ParsedList(nodes: seq<Node>, clauses: nat) | ListDenied(reason: string)

  predicate IsFieldName(s: string) {
    && 0 < |s| <= 128 && 'a' <= s[0] <= 'z'
    && forall c <- s :: 'a' <= c <= 'z' || IsDigit(c) || c == '_' || c == '.' || c == '-'
  }

  function SingleField(body: Json): Result<(string, Json)> {
    if !body.Object? || |body.members| != 1 then Err("querydsl_field_object_invalid")
    else
      var name := OnlyKey(body.members);
      if !IsFieldName(name) then Err("querydsl_field_invalid") else Ok((name, body.members[name]))
  }

  function TypedScalar(lib: Library, kind: Kind, raw: Json): (r: Result<Scalar>)
    ensures r.Ok? ==> ScalarOf(raw) == Some(r.value) && Sized(r.value)
  {
    match kind
    case StringKind =>
      if raw.String? && lib.validText(raw.value) then Ok(Text(raw.value)) else Err("querydsl_literal_type_mismatch")
    case BooleanKind =>
      if raw.Boolean? then Ok(Flag(raw.flag)) else Err("querydsl_literal_type_mismatch")
    case IntegerKind =>
      if !raw.Number? then Err("querydsl_literal_type_mismatch")
      else (var n := ParseInt(raw.text); if n.None? then Err("querydsl_integer_invalid") else Ok(Integer(n.value)))
    case IpKind =>
      if raw.String? && lib.canonicalIp(raw.value) then Ok(Text(raw.value)) else Err("querydsl_ip_invalid")
    case TimestampKind =>
      if raw.String? && lib.canonicalTime(raw.value) then Ok(Text(raw.value)) else Err("querydsl_timestamp_invalid")
  }

  function TypedScalars(lib: Library, kind: Kind, raw: seq<Json>): (r: Result<seq<Scalar>>)
    ensures r.Ok? ==> |r.value| == |raw|
    ensures r.Ok? ==> forall i | 0 <= i < |raw| :: TypedScalar(lib, kind, raw[i]) == Ok(r.value[i])
  {
    if raw == [] then Ok([])
    else
      var head := TypedScalar(lib, kind, raw[0]);
      if head.Err? then Err(head.reason)
      else
        var tail := TypedScalars(lib, kind, raw[1..]);
        if tail.Err? then tail else Ok([head.value] + tail.value)
  }

  /** The sort key of a scalar is its JSON text. */
  function ScalarKey(lib: Library): Scalar -> string {
    (v: Scalar) => lib.encode(ScalarJson(v))
  }

  predicate NoRepeats(key: Scalar -> string, vs: seq<Scalar>) {
    forall i | 1 <= i < |vs| :: key(vs[i - 1]) != key(vs[i])
  }

  function ParseTerm(lib: Library, fields: Fields, body: Json, multiple: bool): Result<Node> {
    var single := SingleField(body);
    if single.Err? then Err(single.reason)
    else
      var (name, raw) := single.value;
      if name !in fields || !fields[name].exact then Err("querydsl_exact_field_denied")
      else if !multiple then
        var value := TypedScalar(lib, fields[name].kind, raw);
        if value.Err? then Err(value.reason) else Ok(Term(fields[name].vendorName, value.value))
      else if !raw.Array? || |raw.items| == 0 || |raw.items| > MAXIMUM_TERMS then Err("querydsl_terms_invalid")
      else
        var values := TypedScalars(lib, fields[name].kind, raw.items);
        if values.Err? then Err(values.reason)
        else
          var sorted := Sort(ScalarKey(lib), values.value);
          if NoRepeats(ScalarKey(lib), sorted) then Ok(Terms(fields[name].vendorName, sorted))
          else Err("querydsl_terms_duplicate")
  }

  function Compare(lib: Library, kind: Kind, a: Scalar, b: Scalar): int {
    if kind.IntegerKind? && a.Integer? && b.Integer? then (if a.n < b.n then -1 else if a.n > b.n then 1 else 0)
    else if (kind.TimestampKind? || kind.IpKind?) && a.Text? && b.Text? then lib.compare(kind, a.s, b.s)
    else 0
  }

  predicate Contradictory(lib: Library, kind: Kind, bounds: map<string, Scalar>) {
    && ("gt" in bounds || "gte" in bounds) && ("lt" in bounds || "lte" in bounds)
    && var lower := if "gte" in bounds then bounds["gte"] else bounds["gt"];
       var upper := if "lte" in bounds then bounds["lte"] else bounds["lt"];
       var order := Compare(lib, kind, lower, upper);
       order > 0 || (order == 0 && ("gte" !in bounds || "lte" !in bounds))
  }

  const OPERATORS := {"gt", "gte", "lt", "lte"}

  /** The reason of the first bound, in this order, that is not of the field's type. */
  function BoundError(lib: Library, kind: Kind, members: map<string, Json>, order: seq<string>): string {
    if order == [] then ""
    else if order[0] in members && TypedScalar(lib, kind, members[order[0]]).Err? then
      TypedScalar(lib, kind, members[order[0]]).reason
    else BoundError(lib, kind, members, order[1..])
  }

  function ParseRange(lib: Library, fields: Fields, body: Json): Result<Node> {
    var single := SingleField(body);
    if single.Err? then Err(single.reason)
    else
      var (name, raw) := single.value;
      if name !in fields || !fields[name].ranged then Err("querydsl_range_field_denied")
      else if !raw.Object? || |raw.members| == 0 || |raw.members| > 2 then Err("querydsl_range_invalid")
      else if exists op <- raw.members.Keys :: op !in OPERATORS then Err("querydsl_range_invalid")
      else if exists op <- raw.members.Keys :: TypedScalar(lib, fields[name].kind, raw.members[op]).Err? then
        Err(BoundError(lib, fields[name].kind, raw.members, ["gt", "gte", "lt", "lte"]))
      else
        var bounds := map op | op in raw.members :: TypedScalar(lib, fields[name].kind, raw.members[op]).value;
        if ("gt" in bounds && "gte" in bounds) || ("lt" in bounds && "lte" in bounds) then Err("querydsl_range_invalid")
        else if Contradictory(lib, fields[name].kind, bounds) then Err("querydsl_range_contradictory")
        else Ok(Range(fields[name].vendorName, bounds))
  }

  function ParseExists(fields: Fields, body: Json): Result<Node> {
    if !body.Object? || |body.members| != 1 || "field" !in body.members || !body.members["field"].String? then
      Err("querydsl_exists_invalid")
    else
      var name := body.members["field"].value;
      if name !in fields || !fields[name].existing then Err("querydsl_exists_field_denied")
      else Ok(Exists(fields[name].vendorName))
  }

  predicate NumberEquals(body: map<string, Json>, key: string, expected: int) {
    key in body && body[key].Number? && ParseInt(body[key].text) == Some(expected)
  }

  function ParseText(lib: Library, fields: Fields, kind: string, body: Json): Result<Node> {
    var single := SingleField(body);
    if single.Err? then Err(single.reason)
    else
      var (name, raw) := single.value;
      if name !in fields || !fields[name].searchable then Err("querydsl_text_field_denied")
      else if !raw.Object? || "query" !in raw.members || !raw.members["query"].String? then Err("querydsl_text_invalid")
      else if !lib.validQuery(raw.members["query"].value) || |raw.members| != 2 then Err("querydsl_text_invalid")
      else if kind == "match" && ("operator" !in raw.members || raw.members["operator"] != String("and")) then
        Err("querydsl_text_invalid")
      else if kind != "match" && !NumberEquals(raw.members, "slop", 0) then Err("querydsl_text_invalid")
      else Ok(Search(kind, fields[name].vendorName, raw.members["query"].value))
  }

  /** Every clause but `bool`; `members` has one key. */
  function ParseLeaf(lib: Library, fields: Fields, members: map<string, Json>): Result<Node> {
    if "match_all" in members then
      (var body := members["match_all"];
       if body.Object? && |body.members| == 0 then Ok(MatchAll) else Err("querydsl_match_all_invalid"))
    else if "term" in members then ParseTerm(lib, fields, members["term"], false)
    else if "terms" in members then ParseTerm(lib, fields, members["terms"], true)
    else if "range" in members then ParseRange(lib, fields, members["range"])
    else if "exists" in members then ParseExists(fields, members["exists"])
    else if "match" in members then ParseText(lib, fields, "match", members["match"])
    else if "match_phrase" in members then ParseText(lib, fields, "match_phrase", members["match_phrase"])
    else Err("querydsl_operator_unsupported")
  }

  const SECTIONS := {"filter", "should", "must_not", "minimum_should_match"}

  /** The checks on a `bool` body that look at no clause. */
  predicate BoolShape(body: Json) {
    body.Object? && 0 < |body.members| <= 4 && forall key <- body.members.Keys :: key in SECTIONS
  }

  function ParseNode(lib: Library, fields: Fields, limits: Limits, j: Json, depth: nat, clauses: nat): Parsed
    decreases j, 2
  {
    if depth > limits.depth || clauses + 1 > limits.clauses then Denied("querydsl_complexity_limit")
    else if !j.Object? || |j.members| != 1 then Denied("querydsl_node_invalid")
    else if "bool" in j.members then ParseBool(lib, fields, limits, j.members["bool"], depth, clauses + 1)
    else
      var leaf := ParseLeaf(lib, fields, j.members);
      if leaf.Err? then Denied(leaf.reason) else Parsed(leaf.value, clauses + 1)
  }

  function ParseBool(lib: Library, fields: Fields, limits: Limits, body: Json, depth: nat, clauses: nat): Parsed
    decreases body, 2
  {
    if !BoolShape(body) then Denied("querydsl_bool_invalid")
    else
      var filter := ParseSection(lib, fields, limits, body, "filter", depth, clauses);
      if filter.ListDenied? then Denied(filter.reason)
      else
        var should := ParseSection(lib, fields, limits, body, "should", depth, filter.clauses);
        if should.ListDenied? then Denied(should.reason)
        else if "should" in body.members && !NumberEquals(body.members, "minimum_should_match", 1) then
          Denied("querydsl_bool_invalid")
        else if "should" !in body.members && "minimum_should_match" in body.members then Denied("querydsl_bool_invalid")
        else
          var mustNot := ParseSection(lib, fields, limits, body, "must_not", depth, should.clauses);
          if mustNot.ListDenied? then Denied(mustNot.reason)
          else if filter.nodes == [] && should.nodes == [] && mustNot.nodes == [] then Denied("querydsl_bool_invalid")
          else Parsed(Bool(filter.nodes, should.nodes, mustNot.nodes), mustNot.clauses)
  }

  function ParseSection(lib: Library, fields: Fields, limits: Limits, body: Json, key: string, depth: nat,
                        clauses: nat): ParsedList
    requires body.Object?
    decreases body, 1
  {
    if key !in body.members then ParsedList([], clauses)
    else
      var raw := body.members[key];
      if !raw.Array? || raw.items == [] || |raw.items| > MAXIMUM_CLAUSES then ListDenied("querydsl_bool_invalid")
      else ParseNodes(lib, fields, limits, raw.items, depth + 1, clauses)
  }

  function ParseNodes(lib: Library, fields: Fields, limits: Limits, items: seq<Json>, depth: nat,
                      clauses: nat): (r: ParsedList)
    ensures r.ParsedList? ==> |r.nodes| == |items|
    decreases items, 0
  {
    if items == [] then ParsedList([], clauses)
    else
      var front := ParseNodes(lib, fields, limits, items[..|items| - 1], depth, clauses);
      if front.ListDenied? then front
      else
        var last := ParseNode(lib, fields, limits, items[|items| - 1], depth, front.clauses);
        if last.Denied? then ListDenied(last.reason) else ParsedList(front.nodes + [last.node], last.clauses)
  }

  /** The parser with its shared clause counter. */
  class QueryParser {
    const lib: Library
    const fields: Fields
    var clauses: nat

    constructor (l: Library, f: Fields)
      ensures lib == l && fields == f && clauses == 0
    {
      lib, fields, clauses := l, f, 0;
    }

    method Node(j: Json, depth: nat) returns (r: Result<Node>)
      modifies this
      ensures var p := ParseNode(lib, fields, SOURCE_LIMITS, j, depth, old(clauses));
              if p.Parsed? then r == Ok(p.node) && clauses == p.clauses else r == Err(p.reason)
      decreases j, 2
    {
      clauses := clauses + 1;
      if depth > SOURCE_LIMITS.depth || clauses > SOURCE_LIMITS.clauses {
        return Err("querydsl_complexity_limit");
      }
      if !j.Object? || |j.members| != 1 {
        return Err("querydsl_node_invalid");
      }
      if "bool" in j.members {
        r := BoolBody(j.members["bool"], depth);
      } else {
        r := ParseLeaf(lib, fields, j.members);
      }
    }

    method BoolBody(body: Json, depth: nat) returns (r: Result<Node>)
      modifies this
      ensures var p := ParseBool(lib, fields, SOURCE_LIMITS, body, depth, old(clauses));
              if p.Parsed? then r == Ok(p.node) && clauses == p.clauses else r == Err(p.reason)
      decreases body, 2
    {
      if !BoolShape(body) {
        return Err("querydsl_bool_invalid");
      }
      var filter := Section(body, "filter", depth);
      if filter.Err? {
        return Err(filter.reason);
      }
      var should := Section(body, "should", depth);
      if should.Err? {
        return Err(should.reason);
      }
      if "should" in body.members {
        if !NumberEquals(body.members, "minimum_should_match", 1) {
          return Err("querydsl_bool_invalid");
        }
      } else if "minimum_should_match" in body.members {
        return Err("querydsl_bool_invalid");
      }
      var mustNot := Section(body, "must_not", depth);
      if mustNot.Err? {
        return Err(mustNot.reason);
      }
      if |filter.value| + |should.value| + |mustNot.value| == 0 {
        return Err("querydsl_bool_invalid");
      }
      r := Ok(Bool(filter.value, should.value, mustNot.value));
    }

    method Section(body: Json, key: string, depth: nat) returns (r: Result<seq<Node>>)
      requires body.Object?
      modifies this
      ensures var p := ParseSection(lib, fields, SOURCE_LIMITS, body, key, depth, old(clauses));
              if p.ParsedList? then r == Ok(p.nodes) && clauses == p.clauses else r == Err(p.reason)
      decreases body, 1
    {
      if key !in body.members {
        return Ok([]);
      }
      var raw := body.members[key];
      if !raw.Array? || raw.items == [] || |raw.items| > MAXIMUM_CLAUSES {
        return Err("querydsl_bool_invalid");
      }
      r := NodeArray(raw.items, depth + 1);
    }

    method NodeArray(items: seq<Json>, depth: nat) returns (r: Result<seq<Node>>)
      modifies this
      ensures var p := ParseNodes(lib, fields, SOURCE_LIMITS, items, depth, old(clauses));
              if p.ParsedList? then r == Ok(p.nodes) && clauses == p.clauses else r == Err(p.reason)
      decreases items, 0
    {
      var result: seq<QueryDslSyntax.Node> := [];
      for index := 0 to |items|
        invariant ParseNodes(lib, fields, SOURCE_LIMITS, items[..index], depth, old(clauses))
                  == ParsedList(result, clauses)
      {
        OneMore(lib, fields, SOURCE_LIMITS, items, index, depth, old(clauses));
        var parsed := Node(items[index], depth);
        if parsed.Err? {
          PrefixDenied(lib, fields, SOURCE_LIMITS, items, index + 1, depth, old(clauses));
          return Err(parsed.reason);
        }
        result := result + [parsed.value];
      }
      assert items[..|items|] == items;
      r := Ok(result);
    }
  }

  lemma OneMore(lib: Library, fields: Fields, limits: Limits, items: seq<Json>, k: nat, depth: nat, clauses: nat)
    requires k < |items| && ParseNodes(lib, fields, limits, items[..k], depth, clauses).ParsedList?
    ensures var front := ParseNodes(lib, fields, limits, items[..k], depth, clauses);
            var last := ParseNode(lib, fields, limits, items[k], depth, front.clauses);
            ParseNodes(lib, fields, limits, items[..k + 1], depth, clauses)
            == if last.Denied? then ListDenied(last.reason) else ParsedList(front.nodes + [last.node], last.clauses)
  {
    assert items[..k + 1][..k] == items[..k] && items[..k + 1][k] == items[k];
  }

  /** A denial inside an array denies the array for the same reason. */
  lemma {:induction false} PrefixDenied(lib: Library, fields: Fields, limits: Limits, items: seq<Json>, k: nat,
                                        depth: nat, clauses: nat)
    requires k <= |items| && ParseNodes(lib, fields, limits, items[..k], depth, clauses).ListDenied?
    ensures ParseNodes(lib, fields, limits, items, depth, clauses)
            == ParseNodes(lib, fields, limits, items[..k], depth, clauses)
    decreases |items|
  {
    if k == |items| {
      assert items[..k] == items;
    } else {
      var front := items[..|items| - 1];
      assert front[..k] == items[..k];
      PrefixDenied(lib, fields, limits, front, k, depth, clauses);
    }
  }
}
