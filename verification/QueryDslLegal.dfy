/** Which Query DSL JSON is accepted: the language itself, stated on the JSON, and the limits on its size. */
module QueryDslLegal {
  import opened Decimal
  import opened QueryDslCompiler
  import opened QueryDslParser
  import opened QueryDslSyntax
  import opened Sorting
  import opened Wrappers

  // ---------- The language

  /** A literal of a field's type. */
  predicate Literal(lib: Library, kind: Kind, j: Json) {
    match kind
    case StringKind => j.String? && lib.validText(j.value)
    case BooleanKind => j.Boolean?
    case IntegerKind => j.Number? && ParseInt(j.text).Some?
    case IpKind => j.String? && lib.canonicalIp(j.value)
    case TimestampKind => j.String? && lib.canonicalTime(j.value)
  }

  lemma LiteralExactly(lib: Library, kind: Kind, j: Json)
    ensures TypedScalar(lib, kind, j).Ok? <==> Literal(lib, kind, j)
    ensures Literal(lib, kind, j) ==> TypedScalar(lib, kind, j) == Ok(ScalarOf(j).value)
  {
  }

  /** At most 128 of the characters a-z, 0-9, `_`, `.` and `-`, the first a letter. */
  predicate Named(s: string) {
    0 < |s| <= 128 && 'a' <= s[0] <= 'z' && forall c <- s :: 'a' <= c <= 'z' || '0' <= c <= '9' || c in "_.-"
  }

  lemma NamedExactly(s: string)
    ensures IsFieldName(s) <==> Named(s)
  {
  }

  /** One field of the table, by a well-formed name. */
  predicate Names(fields: Fields, body: Json) {
    OneField(body) && Named(OnlyKey(body.members)) && OnlyKey(body.members) in fields
  }

  lemma FieldExactly(fields: Fields, body: Json)
    ensures Names(fields, body) <==> SingleField(body).Ok? && SingleField(body).value.0 in fields
    ensures Names(fields, body) ==> SingleField(body) == Ok((OnlyKey(body.members), ValueOf(body)))
  {
    if OneField(body) {
      NamedExactly(OnlyKey(body.members));
    }
  }

  function RuleOf(fields: Fields, body: Json): FieldRule
    requires Names(fields, body)
  {
    fields[OnlyKey(body.members)]
  }

  function ValueOf(body: Json): Json
    requires OneField(body)
  {
    body.members[OnlyKey(body.members)]
  }

  predicate LegalTerm(lib: Library, fields: Fields, body: Json) {
    Names(fields, body) && RuleOf(fields, body).exact && Literal(lib, RuleOf(fields, body).kind, ValueOf(body))
  }

  /** The canonical text of a literal. */
  function TextOf(lib: Library, j: Json): string {
    if ScalarOf(j).Some? then lib.encode(ScalarJson(ScalarOf(j).value)) else ""
  }

  predicate LegalTerms(lib: Library, fields: Fields, body: Json) {
    && Names(fields, body) && RuleOf(fields, body).exact && ValueOf(body).Array?
    && var items := ValueOf(body).items;
       && 0 < |items| <= 256
       && (forall x <- items :: Literal(lib, RuleOf(fields, body).kind, x))
       && forall i, j | 0 <= i < j < |items| :: TextOf(lib, items[i]) != TextOf(lib, items[j])
  }

  /** How two literals of a type compare; types without an order compare equal. */
  function Order(lib: Library, kind: Kind, a: Json, b: Json): int
    requires Literal(lib, kind, a) && Literal(lib, kind, b)
  {
    match kind
    case IntegerKind => ParseInt(a.text).value - ParseInt(b.text).value
    case TimestampKind => lib.compare(kind, a.value, b.value)
    case IpKind => lib.compare(kind, a.value, b.value)
    case _ => 0
  }

  /** A lower and an upper bound leave room between them, or one value where both include it. */
  predicate LegalBounds(lib: Library, kind: Kind, m: map<string, Json>) {
    && m.Keys <= OPERATORS && m.Keys != {} && (forall op <- m.Keys :: Literal(lib, kind, m[op]))
    && !("gt" in m && "gte" in m) && !("lt" in m && "lte" in m)
    && ("gte" in m && "lte" in m ==> Order(lib, kind, m["gte"], m["lte"]) <= 0)
    && ("gte" in m && "lt" in m ==> Order(lib, kind, m["gte"], m["lt"]) < 0)
    && ("gt" in m && "lte" in m ==> Order(lib, kind, m["gt"], m["lte"]) < 0)
    && ("gt" in m && "lt" in m ==> Order(lib, kind, m["gt"], m["lt"]) < 0)
  }

  predicate LegalRange(lib: Library, fields: Fields, body: Json) {
    && Names(fields, body) && RuleOf(fields, body).ranged && ValueOf(body).Object?
    && LegalBounds(lib, RuleOf(fields, body).kind, ValueOf(body).members)
  }

  predicate LegalExists(fields: Fields, body: Json) {
    && body.Object? && body.members.Keys == {"field"} && body.members["field"].String?
    && body.members["field"].value in fields && fields[body.members["field"].value].existing
  }

  /** A text clause asks for all words, or for the exact phrase, and says so. */
  predicate LegalText(lib: Library, fields: Fields, kind: string, body: Json) {
    && Names(fields, body) && RuleOf(fields, body).searchable && ValueOf(body).Object?
    && var m := ValueOf(body).members;
       && m.Keys == {"query", if kind == "match" then "operator" else "slop"}
       && m["query"].String? && lib.validQuery(m["query"].value)
       && if kind == "match" then m["operator"] == String("and") else IntegerOf(m, "slop") == Some(0)
  }

  predicate LegalLeaf(lib: Library, fields: Fields, m: map<string, Json>) {
    || ("match_all" in m && m["match_all"] == Object(map[]))
    || ("term" in m && LegalTerm(lib, fields, m["term"]))
    || ("terms" in m && LegalTerms(lib, fields, m["terms"]))
    || ("range" in m && LegalRange(lib, fields, m["range"]))
    || ("exists" in m && LegalExists(fields, m["exists"]))
    || ("match" in m && LegalText(lib, fields, "match", m["match"]))
    || ("match_phrase" in m && LegalText(lib, fields, "match_phrase", m["match_phrase"]))
  }

  predicate Legal(lib: Library, fields: Fields, j: Json)
    decreases j, 2
  {
    && OneField(j)
    && if "bool" in j.members then LegalBool(lib, fields, j.members["bool"]) else LegalLeaf(lib, fields, j.members)
  }

  const LISTS := {"filter", "should", "must_not"}

  /** A bool holds some list, and asks for one of `should` exactly when that is among them. */
  predicate LegalBool(lib: Library, fields: Fields, body: Json)
    decreases body, 2
  {
    && body.Object? && body.members.Keys <= LISTS + {"minimum_should_match"} && body.members.Keys * LISTS != {}
    && ("should" in body.members <==> "minimum_should_match" in body.members)
    && ("should" in body.members ==> IntegerOf(body.members, "minimum_should_match") == Some(1))
    && forall key <- body.members.Keys | key in LISTS :: LegalList(lib, fields, body.members[key])
  }

  predicate LegalList(lib: Library, fields: Fields, list: Json)
    decreases list, 2
  {
    list.Array? && 0 < |list.items| <= 1024 && forall x <- list.items :: Legal(lib, fields, x)
  }

  // ---------- Its size

  /** The clauses of a query, itself included. */
  function Clauses(j: Json): nat
    decreases j, 2
  {
    1 + if OneField(j) && "bool" in j.members then ClausesOf(j.members["bool"]) else 0
  }

  function ClausesOf(body: Json): nat
    decreases body, 2
  {
    if !body.Object? then 0
    else ClausesIn(body, "filter") + ClausesIn(body, "should") + ClausesIn(body, "must_not")
  }

  function ClausesIn(body: Json, key: string): nat
    requires body.Object?
    decreases body, 1
  {
    if key in body.members && body.members[key].Array? then ClausesAll(body.members[key].items) else 0
  }

  function ClausesAll(items: seq<Json>): nat
    decreases items, 0
  {
    if items == [] then 0 else ClausesAll(items[..|items| - 1]) + Clauses(items[|items| - 1])
  }

  function Larger(a: nat, b: nat): nat {
    if a >= b then a else b
  }

  /** How deep its clauses nest. */
  function Depth(j: Json): nat
    decreases j, 2
  {
    1 + if OneField(j) && "bool" in j.members then DepthOf(j.members["bool"]) else 0
  }

  function DepthOf(body: Json): nat
    decreases body, 2
  {
    if !body.Object? then 0
    else Larger(DepthIn(body, "filter"), Larger(DepthIn(body, "should"), DepthIn(body, "must_not")))
  }

  function DepthIn(body: Json, key: string): nat
    requires body.Object?
    decreases body, 1
  {
    if key in body.members && body.members[key].Array? then DepthAll(body.members[key].items) else 0
  }

  function DepthAll(items: seq<Json>): nat
    decreases items, 0
  {
    if items == [] then 0 else Larger(DepthAll(items[..|items| - 1]), Depth(items[|items| - 1]))
  }

  // ---------- Leaves

  lemma TermExactly(lib: Library, fields: Fields, body: Json)
    ensures ParseTerm(lib, fields, body, false).Ok? <==> LegalTerm(lib, fields, body)
  {
    FieldExactly(fields, body);
    if Names(fields, body) {
      LiteralExactly(lib, RuleOf(fields, body).kind, ValueOf(body));
    }
  }

  lemma {:induction false} LiteralsExactly(lib: Library, kind: Kind, items: seq<Json>)
    ensures TypedScalars(lib, kind, items).Ok? <==> forall x <- items :: Literal(lib, kind, x)
  {
    if items != [] {
      LiteralExactly(lib, kind, items[0]);
      LiteralsExactly(lib, kind, items[1..]);
      assert items == [items[0]] + items[1..];
    }
  }

  ghost predicate Apart(key: Scalar -> string, s: seq<Scalar>) {
    forall i, j | 0 <= i < j < |s| :: key(s[i]) != key(s[j])
  }

  /** In a sorted list equal keys are neighbours. */
  lemma SortedApart(key: Scalar -> string, s: seq<Scalar>)
    requires SortedBy(key, s)
    ensures NoRepeats(key, s) <==> Apart(key, s)
  {
    if NoRepeats(key, s) {
      forall i, j | 0 <= i < j < |s| ensures key(s[i]) != key(s[j]) {
        if key(s[i]) == key(s[j]) && i < j - 1 {
          Antisymmetric(key(s[i]), key(s[j - 1]));
        }
      }
    }
  }

  lemma {:induction false} Twice(s: seq<Scalar>, x: Scalar)
    requires multiset(s)[x] >= 2
    ensures exists i, j :: 0 <= i < j < |s| && s[i] == s[j] == x
  {
    assert s == [s[0]] + s[1..];
    if s[0] == x {
      assert x in multiset(s[1..]);
      var k :| 0 <= k < |s[1..]| && s[1..][k] == x;
      assert s[k + 1] == x;
    } else {
      Twice(s[1..], x);
      var i, j :| 0 <= i < j < |s[1..]| && s[1..][i] == s[1..][j] == x;
      assert s[i + 1] == s[j + 1] == x;
    }
  }

  /** Rearranging a list keeps its keys apart. */
  lemma RearrangedApart(key: Scalar -> string, a: seq<Scalar>, b: seq<Scalar>)
    requires multiset(a) == multiset(b) && Apart(key, a)
    ensures Apart(key, b)
  {
    forall i, j | 0 <= i < j < |b| ensures key(b[i]) != key(b[j]) {
      assert b[i] in multiset(b) && b[j] in multiset(b);
      if b[i] == b[j] {
        assert b == b[..i] + [b[i]] + b[i + 1..j] + [b[j]] + b[j + 1..];
        Twice(a, b[i]);
        assert false;
      }
      var p :| 0 <= p < |a| && a[p] == b[i];
      var q :| 0 <= q < |a| && a[q] == b[j];
    }
  }

  lemma TermsExactly(lib: Library, fields: Fields, body: Json)
    ensures ParseTerm(lib, fields, body, true).Ok? <==> LegalTerms(lib, fields, body)
  {
    FieldExactly(fields, body);
    if Names(fields, body) && ValueOf(body).Array? {
      var kind, items := RuleOf(fields, body).kind, ValueOf(body).items;
      LiteralsExactly(lib, kind, items);
      if TypedScalars(lib, kind, items).Ok? {
        TextsApart(lib, kind, items);
      }
    }
  }

  lemma TextsApart(lib: Library, kind: Kind, items: seq<Json>)
    requires TypedScalars(lib, kind, items).Ok?
    ensures var values := TypedScalars(lib, kind, items).value;
            NoRepeats(ScalarKey(lib), Sort(ScalarKey(lib), values)) <==>
            forall i, j | 0 <= i < j < |items| :: TextOf(lib, items[i]) != TextOf(lib, items[j])
  {
    var key, values := ScalarKey(lib), TypedScalars(lib, kind, items).value;
    var sorted := Sort(key, values);
    SortSorts(key, values);
    SortedApart(key, sorted);
    if Apart(key, sorted) {
      RearrangedApart(key, sorted, values);
    }
    if Apart(key, values) {
      RearrangedApart(key, values, sorted);
    }
    forall i | 0 <= i < |items| ensures TextOf(lib, items[i]) == key(values[i]) {
      assert TypedScalar(lib, kind, items[i]) == Ok(values[i]);
    }
  }

  /** The order of the parsed values is that of the literals. */
  lemma OrderExactly(lib: Library, kind: Kind, a: Json, b: Json)
    requires Literal(lib, kind, a) && Literal(lib, kind, b)
    ensures var order := Compare(lib, kind, ScalarOf(a).value, ScalarOf(b).value);
            (order > 0 <==> Order(lib, kind, a, b) > 0) && (order == 0 <==> Order(lib, kind, a, b) == 0)
  {
  }

  predicate OnePerSide(lib: Library, kind: Kind, m: map<string, Json>) {
    && m.Keys <= OPERATORS && m.Keys != {} && (forall op <- m.Keys :: Literal(lib, kind, m[op]))
    && !("gt" in m && "gte" in m) && !("lt" in m && "lte" in m)
  }

  lemma BoundsExactly(lib: Library, kind: Kind, m: map<string, Json>, bounds: map<string, Scalar>)
    requires OnePerSide(lib, kind, m)
    requires bounds == map op | op in m :: ScalarOf(m[op]).value
    ensures Contradictory(lib, kind, bounds) <==> !LegalBounds(lib, kind, m)
  {
    var lower, upper := if "gte" in m then "gte" else "gt", if "lte" in m then "lte" else "lt";
    if lower in m && upper in m {
      OrderExactly(lib, kind, m[lower], m[upper]);
      assert bounds[lower] == ScalarOf(m[lower]).value && bounds[upper] == ScalarOf(m[upper]).value;
    }
  }

  lemma AtMostTwo(lib: Library, kind: Kind, m: map<string, Json>)
    requires OnePerSide(lib, kind, m)
    ensures |m| <= 2
  {
    TwoKeys(m, if "gt" in m then "gt" else "gte", if "lt" in m then "lt" else "lte");
  }

  lemma TwoKeys(m: map<string, Json>, a: string, b: string)
    requires m.Keys <= {a, b}
    ensures |m| <= 2
  {
    assert |m.Keys| == |m|;
    Smaller(m.Keys, {a, b});
  }

  lemma {:induction false} Smaller(a: set<string>, b: set<string>)
    requires a <= b
    ensures |a| <= |b|
  {
    if a != {} {
      var x :| x in a;
      Smaller(a - {x}, b - {x});
    }
  }

  lemma RangeExactly(lib: Library, fields: Fields, body: Json)
    ensures ParseRange(lib, fields, body).Ok? <==> LegalRange(lib, fields, body)
  {
    FieldExactly(fields, body);
    if Names(fields, body) && ValueOf(body).Object? {
      var kind, m := RuleOf(fields, body).kind, ValueOf(body).members;
      assert |m| == 0 <==> m.Keys == {};
      forall op <- m.Keys
        ensures TypedScalar(lib, kind, m[op]).Ok? <==> Literal(lib, kind, m[op])
        ensures Literal(lib, kind, m[op]) ==> TypedScalar(lib, kind, m[op]) == Ok(ScalarOf(m[op]).value)
      {
        LiteralExactly(lib, kind, m[op]);
      }
      if OnePerSide(lib, kind, m) {
        AtMostTwo(lib, kind, m);
        var bounds := map op | op in m :: TypedScalar(lib, kind, m[op]).value;
        BoundsExactly(lib, kind, m, bounds);
      }
    }
  }

  lemma ExistsExactly(fields: Fields, body: Json)
    ensures ParseExists(fields, body).Ok? <==> LegalExists(fields, body)
  {
    if body.Object? && "field" in body.members {
      OneKey(body.members, "field");
    }
  }

  lemma OneKey(m: map<string, Json>, key: string)
    requires key in m
    ensures |m| == 1 <==> m.Keys == {key}
  {
    assert |m.Keys| == |m|;
    if |m| == 1 {
      SingleKey(m);
    }
  }

  lemma TextExactly(lib: Library, fields: Fields, kind: string, body: Json)
    ensures ParseText(lib, fields, kind, body).Ok? <==> LegalText(lib, fields, kind, body)
  {
    FieldExactly(fields, body);
    if Names(fields, body) && ValueOf(body).Object? {
      var m := ValueOf(body).members;
      var option := if kind == "match" then "operator" else "slop";
      if "query" in m && option in m {
        BothKeys(m, "query", option);
      }
    }
  }

  lemma BothKeys(m: map<string, Json>, a: string, b: string)
    requires a in m && b in m && a != b
    ensures |m| == 2 <==> m.Keys == {a, b}
  {
    assert |m.Keys| == |m|;
    assert m.Keys == (m.Keys - {a, b}) + {a, b};
    assert |m.Keys - {a, b}| == |m| - 2;
  }

  lemma LeafExactly(lib: Library, fields: Fields, m: map<string, Json>)
    requires |m| == 1
    ensures ParseLeaf(lib, fields, m).Ok? <==> LegalLeaf(lib, fields, m)
  {
    SingleKey(m);
    var key := OnlyKey(m);
    match key
    case "match_all" => MatchAllExactly(m[key]);
    case "term" => TermExactly(lib, fields, m[key]);
    case "terms" => TermsExactly(lib, fields, m[key]);
    case "range" => RangeExactly(lib, fields, m[key]);
    case "exists" => ExistsExactly(fields, m[key]);
    case "match" => TextExactly(lib, fields, "match", m[key]);
    case "match_phrase" => TextExactly(lib, fields, "match_phrase", m[key]);
    case _ =>
  }

  lemma MatchAllExactly(body: Json)
    ensures body.Object? && |body.members| == 0 <==> body == Object(map[])
  {
    if body.Object? && |body.members| == 0 {
      assert body.members == map[];
    }
  }

  // ---------- Trees

  /** It fits what is left of the limits at this depth and with this many clauses counted. */
  predicate Fits(limits: Limits, depth: nat, clauses: nat, deep: nat, size: nat) {
    depth + deep <= limits.depth + 1 && clauses + size <= limits.clauses
  }

  predicate NodeAnswer(r: Parsed, ok: bool, clauses: nat) {
    (r.Parsed? <==> ok) && (r.Parsed? ==> r.clauses == clauses)
  }

  predicate ListAnswer(r: ParsedList, ok: bool, clauses: nat) {
    (r.ParsedList? <==> ok) && (r.ParsedList? ==> r.clauses == clauses)
  }

  /**
    A query is accepted exactly when it is a sentence of the language and fits the limits, and it is charged the
    clauses it has.
   */
  lemma {:induction false} AcceptedExactly(lib: Library, fields: Fields, limits: Limits, j: Json, depth: nat,
                                           clauses: nat)
    ensures NodeAnswer(ParseNode(lib, fields, limits, j, depth, clauses),
                       Legal(lib, fields, j) && Fits(limits, depth, clauses, Depth(j), Clauses(j)),
                       clauses + Clauses(j))
    decreases j, 2
  {
    if OneField(j) {
      if "bool" !in j.members {
        LeafExactly(lib, fields, j.members);
      } else if depth <= limits.depth && clauses + 1 <= limits.clauses {
        BoolExactly(lib, fields, limits, j.members["bool"], depth, clauses + 1);
      }
    }
  }

  lemma {:induction false} BoolExactly(lib: Library, fields: Fields, limits: Limits, body: Json, depth: nat,
                                       clauses: nat)
    requires depth <= limits.depth && clauses <= limits.clauses
    ensures NodeAnswer(ParseBool(lib, fields, limits, body, depth, clauses),
                       LegalBool(lib, fields, body) && Fits(limits, depth + 1, clauses, DepthOf(body), ClausesOf(body)),
                       clauses + ClausesOf(body))
    decreases body, 2
  {
    if BoolShape(body) {
      assert body.Object?;
      SectionExactly(lib, fields, limits, body, "filter", depth, clauses);
      var filter := ParseSection(lib, fields, limits, body, "filter", depth, clauses);
      if filter.ParsedList? {
        SectionExactly(lib, fields, limits, body, "should", depth, filter.clauses);
        var should := ParseSection(lib, fields, limits, body, "should", depth, filter.clauses);
        if should.ParsedList? {
          SectionExactly(lib, fields, limits, body, "must_not", depth, should.clauses);
        }
      }
    }
    BoolParts(lib, fields, body);
  }

  predicate ShouldRule(m: map<string, Json>) {
    if "should" in m then NumberEquals(m, "minimum_should_match", 1) else "minimum_should_match" !in m
  }

  /** The parts of a legal bool, in the order in which they are looked at. */
  lemma BoolParts(lib: Library, fields: Fields, body: Json)
    ensures LegalBool(lib, fields, body) <==>
            && BoolShape(body) && LegalIn(lib, fields, body, "filter") && LegalIn(lib, fields, body, "should")
            && ShouldRule(body.members) && LegalIn(lib, fields, body, "must_not")
            && !("filter" !in body.members && "should" !in body.members && "must_not" !in body.members)
  {
    if body.Object? && body.members.Keys <= SECTIONS {
      Smaller(body.members.Keys, SECTIONS);
    }
  }

  /** A list that is absent is allowed here. */
  predicate LegalIn(lib: Library, fields: Fields, body: Json, key: string)
    requires body.Object?
  {
    key in body.members ==> LegalList(lib, fields, body.members[key])
  }

  lemma {:induction false} SectionExactly(lib: Library, fields: Fields, limits: Limits, body: Json, key: string,
                                          depth: nat, clauses: nat)
    requires body.Object? && depth <= limits.depth && clauses <= limits.clauses
    ensures ListAnswer(ParseSection(lib, fields, limits, body, key, depth, clauses),
                       LegalIn(lib, fields, body, key)
                       && Fits(limits, depth + 1, clauses, DepthIn(body, key), ClausesIn(body, key)),
                       clauses + ClausesIn(body, key))
    ensures var r := ParseSection(lib, fields, limits, body, key, depth, clauses);
            r.ParsedList? ==> (r.nodes == [] <==> key !in body.members)
    decreases body, 1
  {
    if key in body.members && body.members[key].Array? {
      ListExactly(lib, fields, limits, body.members[key].items, depth + 1, clauses);
    }
  }

  lemma {:induction false} ListExactly(lib: Library, fields: Fields, limits: Limits, items: seq<Json>, depth: nat,
                                       clauses: nat)
    requires depth <= limits.depth + 1 && clauses <= limits.clauses
    ensures ListAnswer(ParseNodes(lib, fields, limits, items, depth, clauses),
                       (forall x <- items :: Legal(lib, fields, x))
                       && Fits(limits, depth, clauses, DepthAll(items), ClausesAll(items)),
                       clauses + ClausesAll(items))
    decreases items, 0
  {
    if items != [] {
      var front, last := items[..|items| - 1], items[|items| - 1];
      ListExactly(lib, fields, limits, front, depth, clauses);
      assert items == front + [last];
      var r := ParseNodes(lib, fields, limits, front, depth, clauses);
      if r.ParsedList? {
        AcceptedExactly(lib, fields, limits, last, depth, r.clauses);
      }
    }
  }
}
