/** Decoded JSON, field rules and the query tree of the Query DSL compiler. */
module QueryDslSyntax {
  import opened Decimal
  import opened Wrappers

  /** A decoded JSON value; numbers keep their text. */
  datatype Json =
    | Null
    | Boolean(flag: bool)
    | Number(text: string)
    | String(value: string)
    | Array(items: seq<Json>)
    | Object(members: map<string, Json>)

  datatype Kind = StringKind | IntegerKind | BooleanKind | TimestampKind | IpKind

  datatype FieldRule = FieldRule(vendorName: string, kind: Kind, exact: bool, ranged: bool, existing: bool,
                                 searchable: bool)

  type Fields = map<string, FieldRule>

  datatype Scalar = Integer(n: int) | Flag(b: bool) | Text(s: string)

  /** A parsed query; fields are held by their vendor names. */
  datatype Node =
    | MatchAll
    | Term(field: string, value: Scalar)
    | Terms(field: string, values: seq<Scalar>)
    | Range(field: string, bounds: map<string, Scalar>)
    | Exists(field: string)
    | Search(kind: string, field: string, query: string)
    | Bool(filter: seq<Node>, should: seq<Node>, mustNot: seq<Node>)

  /** Text checks and orders that belong to libraries. */
  datatype Library = Library(
    validText: string -> bool,
    validQuery: string -> bool,
    canonicalIp: string -> bool,
    canonicalTime: string -> bool,
    compare: (Kind, string, string) -> int,
    encode: Json -> string)

  /** What every JSON number, text or flag denotes. */
  function ScalarOf(j: Json): Option<Scalar> {
    match j
    case String(s) => Some(Text(s))
    case Boolean(b) => Some(Flag(b))
    case Number(t) => (var n := ParseInt(t); if n.Some? then Some(Integer(n.value)) else None)
    case _ => None
  }

  function ScalarJson(v: Scalar): Json {
    match v
    case Integer(n) => Number(Show(n))
    case Flag(b) => Boolean(b)
    case Text(s) => String(s)
  }

  /** Integers fit in 64 bits, as every parsed one does. */
  predicate Sized(v: Scalar) {
    v.Integer? ==> MINIMUM_INTEGER <= v.n <= MAXIMUM_INTEGER
  }

  lemma ScalarRoundTrip(v: Scalar)
    requires Sized(v)
    ensures ScalarOf(ScalarJson(v)) == Some(v)
  {
    if v.Integer? {
      ParseIntOfShow(v.n);
    }
  }

  lemma SingleKey<V>(m: map<string, V>)
    requires |m| == 1
    ensures (exists k :: k in m) && forall x, y | x in m && y in m :: x == y
  {
    assert |m.Keys| == 1;
    var k :| k in m.Keys;
    assert |m.Keys - {k}| == 0;
  }

  function OnlyKey<V>(m: map<string, V>): (k: string)
    requires |m| == 1
    ensures m.Keys == {k}
  {
    SingleKey(m);
    var k :| k in m;
    k
  }
}
