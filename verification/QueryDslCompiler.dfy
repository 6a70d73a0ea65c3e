/** The canonical vendor query and the plan around it, and what they mean on every document. */
module QueryDslCompiler {
  import opened QueryDslSyntax
  import opened Sorting
  import opened Wrappers

  datatype Definition = Definition(fields: Fields, timestampField: string, tenantField: string, sourceField: string)

  datatype Query = Query(start: string, end: string, tenant: string, source: string)

  // ----- the compiler

  function One(key: string, value: Json): Json {
    Object(map[key := value])
  }

  lemma OneHas(key: string, value: Json)
    ensures var m := One(key, value).members; |m| == 1 && m.Keys == {key} && m[key] == value && OnlyKey(m) == key
  {
    var m := map[key := value];
    assert m.Keys == {key} && |m| == 1;
  }

  function BoundsJson(bounds: map<string, Scalar>): Json {
    Object(map op | op in bounds :: ScalarJson(bounds[op]))
  }

  function CanonicalNode(lib: Library, n: Node): Json
    decreases n, 1
  {
    match n
    case MatchAll => One("match_all", Object(map[]))
    case Term(f, v) => One("term", One(f, ScalarJson(v)))
    case Terms(f, vs) => One("terms", One(f, Array(seq(|vs|, i requires 0 <= i < |vs| => ScalarJson(vs[i])))))
    case Range(f, bounds) => One("range", One(f, BoundsJson(bounds)))
    case Exists(f) => One("exists", One("field", String(f)))
    case Search(kind, f, q) =>
      if kind == "match" then One("match", One(f, Object(map["query" := String(q), "operator" := String("and")])))
      else One("match_phrase", One(f, Object(map["query" := String(q), "slop" := Number("0")])))
    case Bool(filter, should, mustNot) =>
      One("bool", BoolJson(CanonicalNodes(lib, filter), CanonicalNodes(lib, should), CanonicalNodes(lib, mustNot)))
  }

  function BoolJson(filter: seq<Json>, should: seq<Json>, mustNot: seq<Json>): Json {
    Object(Section("filter", filter)
           + (if should == [] then map[] else map["minimum_should_match" := Number("1")])
           + Section("should", should)
           + Section("must_not", mustNot))
  }

  function Section(key: string, items: seq<Json>): map<string, Json> {
    if items == [] then map[] else map[key := Array(items)]
  }

  function CanonicalNodes(lib: Library, ns: seq<Node>): (r: seq<Json>)
    ensures |r| == |ns|
    decreases ns, 1
  {
    assert |multiset(Sort(lib.encode, Each(lib, ns)))| == |multiset(Each(lib, ns))|;
    Sort(lib.encode, Each(lib, ns))
  }

  function Each(lib: Library, ns: seq<Node>): (r: seq<Json>)
    ensures |r| == |ns| && forall i | 0 <= i < |ns| :: r[i] == CanonicalNode(lib, ns[i])
    decreases ns, 0
  {
    if ns == [] then [] else [CanonicalNode(lib, ns[0])] + Each(lib, ns[1..])
  }

  lemma CanonicalBool(lib: Library, n: Node, f: seq<Json>, s: seq<Json>, m: seq<Json>)
    requires n.Bool? && f == CanonicalNodes(lib, n.filter) && s == CanonicalNodes(lib, n.should)
    requires m == CanonicalNodes(lib, n.mustNot)
    ensures CanonicalNode(lib, n) == One("bool", BoolJson(f, s, m))
  {
  }

  /** A field's vendor name; names outside the table stand for themselves. */
  function Vendor(fields: Fields, name: string): string {
    if name in fields then fields[name].vendorName else name
  }

  function VendorName(def: Definition, name: string): string {
    Vendor(def.fields, name)
  }

  function TimeFilter(field: string, start: string, end: string): Json {
    One("range", One(field, Object(map["format" := String("strict_date_optional_time_nanos"),
                                       "gte" := String(start), "lt" := String(end)])))
  }

  /** An exact filter on a configured field; an empty name means it is not configured. */
  function ScopeFilter(def: Definition, field: string, value: string): seq<Json> {
    if field == "" then [] else [One("term", One(VendorName(def, field), String(value)))]
  }

  function MandatoryFilters(def: Definition, q: Query): seq<Json> {
    [TimeFilter(VendorName(def, def.timestampField), q.start, q.end)]
    + ScopeFilter(def, def.tenantField, q.tenant)
    + ScopeFilter(def, def.sourceField, q.source)
  }

  function PlanQuery(lib: Library, def: Definition, q: Query, caller: Node): Json {
    One("bool", One("filter", Array(MandatoryFilters(def, q) + [CanonicalNode(lib, caller)])))
  }

  // ----- what a query means

  /** How the words of a field must answer those asked for: all, any, or in order with so many moves. */
  datatype Manner = AllWords | AnyWord | Phrase(slop: int)

  /**
    A document and the index it is in: the values of each vendor field, how a bound is read under a
    date format ("" where none is given), the order of values, and full-text search.
   */
  datatype Document = Document(
    values: string -> set<Scalar>,
    bound: (string, Scalar) -> Scalar,
    atMost: (Scalar, Scalar) -> bool,
    found: (Manner, string, string) -> bool)

  predicate Meets(d: Document, op: string, v: Scalar, bound: Scalar) {
    match op
    case "gte" => d.atMost(bound, v)
    case "gt" => !d.atMost(v, bound)
    case "lte" => d.atMost(v, bound)
    case "lt" => !d.atMost(bound, v)
    case _ => true
  }

  predicate HasScalar(d: Document, field: string, j: Json) {
    ScalarOf(j).Some? && ScalarOf(j).value in d.values(field)
  }

  predicate OneField(body: Json) {
    body.Object? && |body.members| == 1
  }

  predicate EvalTerm(d: Document, names: Fields, body: Json) {
    OneField(body) && var f := OnlyKey(body.members); HasScalar(d, Vendor(names, f), body.members[f])
  }

  predicate EvalTerms(d: Document, names: Fields, body: Json) {
    && OneField(body)
    && var f := OnlyKey(body.members);
       body.members[f].Array? && exists x <- body.members[f].items :: HasScalar(d, Vendor(names, f), x)
  }

  function FormatOf(bounds: map<string, Json>): string {
    if "format" in bounds && bounds["format"].String? then bounds["format"].value else ""
  }

  predicate InBounds(d: Document, v: Scalar, bounds: map<string, Json>) {
    forall op <- bounds.Keys | op != "format" ::
      ScalarOf(bounds[op]).Some? && Meets(d, op, v, d.bound(FormatOf(bounds), ScalarOf(bounds[op]).value))
  }

  predicate EvalRange(d: Document, names: Fields, body: Json) {
    && OneField(body)
    && var f := OnlyKey(body.members);
       body.members[f].Object? && exists v <- d.values(Vendor(names, f)) :: InBounds(d, v, body.members[f].members)
  }

  predicate EvalExists(d: Document, names: Fields, body: Json) {
    && OneField(body)
    && var f := OnlyKey(body.members);
       body.members[f].String? && d.values(Vendor(names, body.members[f].value)) != {}
  }

  /** The integer an option gives, where it gives one. */
  function IntegerOf(m: map<string, Json>, key: string): Option<int> {
    if key !in m then None
    else
      var v := ScalarOf(m[key]);
      if v.Some? && v.value.Integer? then Some(v.value.n) else None
  }

  /** What the options of a full-text clause ask for; None for options that are given no meaning here. */
  function MannerOf(kind: string, m: map<string, Json>): Option<Manner> {
    if kind == "match" then
      if !(m.Keys <= {"query", "operator"}) then None
      else if "operator" !in m || m["operator"] == String("or") then Some(AnyWord)
      else if m["operator"] == String("and") then Some(AllWords)
      else None
    else if !(m.Keys <= {"query", "slop"}) then None
    else if "slop" !in m then Some(Phrase(0))
    else
      var slop := IntegerOf(m, "slop");
      if slop.Some? then Some(Phrase(slop.value)) else None
  }

  predicate EvalSearch(d: Document, names: Fields, kind: string, body: Json) {
    && OneField(body)
    && var f := OnlyKey(body.members);
       var raw := body.members[f];
       && raw.Object? && "query" in raw.members && raw.members["query"].String? && MannerOf(kind, raw.members).Some?
       && d.found(MannerOf(kind, raw.members).value, Vendor(names, f), raw.members["query"].value)
  }

  predicate EvalLeaf(d: Document, names: Fields, m: map<string, Json>) {
    if "match_all" in m then true
    else if "term" in m then EvalTerm(d, names, m["term"])
    else if "terms" in m then EvalTerms(d, names, m["terms"])
    else if "range" in m then EvalRange(d, names, m["range"])
    else if "exists" in m then EvalExists(d, names, m["exists"])
    else if "match" in m then EvalSearch(d, names, "match", m["match"])
    else if "match_phrase" in m then EvalSearch(d, names, "match_phrase", m["match_phrase"])
    else false
  }

  /** The meaning of Query DSL JSON, whoever wrote it; `names` gives fields their vendor names. */
  predicate Eval(d: Document, names: Fields, j: Json)
    decreases j, 1
  {
    && OneField(j)
    && if "bool" in j.members then EvalBool(d, names, j.members["bool"]) else EvalLeaf(d, names, j.members)
  }

  /**
    How many of the `should` clauses must match: the number given, counted from all of them when it is
    negative; otherwise one, or none beside `filter` or `must`. None for numbers in another notation.
   */
  function Required(m: map<string, Json>, clauses: nat): Option<int> {
    if "minimum_should_match" in m then
      var given := IntegerOf(m, "minimum_should_match");
      if given.Some? && given.value < 0 then Some(clauses + given.value) else given
    else if "should" in m && "filter" !in m && "must" !in m then Some(1)
    else Some(0)
  }

  /** All of `filter` and `must`, as many of `should` as are required, and none of `must_not`. */
  predicate EvalBool(d: Document, names: Fields, body: Json)
    decreases body, 2
  {
    && body.Object?
    && ("filter" in body.members ==> EvalAll(d, names, body.members["filter"]))
    && ("must" in body.members ==> EvalAll(d, names, body.members["must"]))
    && EvalShould(d, names, body)
    && ("must_not" in body.members ==> !EvalSome(d, names, body.members["must_not"]))
  }

  predicate EvalShould(d: Document, names: Fields, body: Json)
    requires body.Object?
    decreases body, 1
  {
    if "should" !in body.members then Required(body.members, 0).Some? && Required(body.members, 0).value <= 0
    else
      && body.members["should"].Array?
      && var items := body.members["should"].items;
         var required := Required(body.members, |items|);
         required.Some? && required.value <= EvalCount(d, names, items)
  }

  /** How many clauses of a list match. */
  function EvalCount(d: Document, names: Fields, items: seq<Json>): nat
    decreases items, 2
  {
    if items == [] then 0 else (if Eval(d, names, items[0]) then 1 else 0) + EvalCount(d, names, items[1..])
  }

  predicate EvalAll(d: Document, names: Fields, list: Json)
    decreases list, 2
  {
    list.Array? && forall x <- list.items :: Eval(d, names, x)
  }

  predicate EvalSome(d: Document, names: Fields, list: Json)
    decreases list, 2
  {
    list.Array? && exists x <- list.items :: Eval(d, names, x)
  }

  /** The meaning of a parsed tree. */
  predicate Matches(d: Document, n: Node) {
    match n
    case MatchAll => true
    case Term(f, v) => v in d.values(f)
    case Terms(f, vs) => exists v <- vs :: v in d.values(f)
    case Range(f, bounds) => exists v <- d.values(f) :: Within(d, v, bounds)
    case Exists(f) => d.values(f) != {}
    case Search(kind, f, q) => d.found(if kind == "match" then AllWords else Phrase(0), f, q)
    case Bool(filter, should, mustNot) =>
      && (forall c <- filter :: Matches(d, c))
      && (should == [] || exists c <- should :: Matches(d, c))
      && (forall c <- mustNot :: !Matches(d, c))
  }

  predicate Within(d: Document, v: Scalar, bounds: map<string, Scalar>) {
    forall op <- bounds.Keys :: Meets(d, op, v, d.bound("", bounds[op]))
  }
}
