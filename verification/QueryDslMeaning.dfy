/** Parsing, canonicalising and planning keep the meaning of the caller's query. */
module QueryDslMeaning {
  import opened QueryDslSyntax
  import opened QueryDslParser
  import opened QueryDslCompiler
  import opened Sorting
  import opened Wrappers

  /** The table under which every name stands for itself. */
  const IDENTITY: Fields := map[]

  // ----- parsed trees are well formed

  predicate WellFormed(n: Node) {
    match n
    case Term(_, v) => Sized(v)
    case Terms(_, vs) => forall v <- vs :: Sized(v)
    case Range(_, bounds) => forall op <- bounds.Keys :: op in OPERATORS && Sized(bounds[op])
    case Search(kind, _, _) => kind == "match" || kind == "match_phrase"
    case Bool(filter, should, mustNot) =>
      && (forall c <- filter :: WellFormed(c)) && (forall c <- should :: WellFormed(c))
      && (forall c <- mustNot :: WellFormed(c))
    case _ => true
  }

  lemma TermsParse(lib: Library, fields: Fields, body: Json, d: Document)
    requires ParseTerm(lib, fields, body, true).Ok?
    ensures var n := ParseTerm(lib, fields, body, true).value;
            && n.Terms? && WellFormed(n)
            && Matches(d, n) == EvalTerms(d, fields, body)
  {
    var name := OnlyKey(body.members);
    var items := body.members[name].items;
    var values := TypedScalars(lib, fields[name].kind, items).value;
    SameElements(Sort(ScalarKey(lib), values), values);
    TypedElements(lib, fields[name].kind, items, d, Vendor(fields, name));
  }

  /** Typed values are the scalars of their JSON, so a document has one of them exactly when it has one of those. */
  lemma TypedElements(lib: Library, kind: Kind, items: seq<Json>, d: Document, field: string)
    requires TypedScalars(lib, kind, items).Ok?
    ensures var values := TypedScalars(lib, kind, items).value;
            && (forall v <- values :: Sized(v))
            && ((exists v <- values :: v in d.values(field)) <==> exists x <- items :: HasScalar(d, field, x))
  {
    var values := TypedScalars(lib, kind, items).value;
    forall i | 0 <= i < |items|
      ensures ScalarOf(items[i]) == Some(values[i]) && Sized(values[i]) && values[i] in values && items[i] in items
    {
      assert TypedScalar(lib, kind, items[i]) == Ok(values[i]);
    }
  }

  lemma SameElements<T>(a: seq<T>, b: seq<T>)
    requires multiset(a) == multiset(b)
    ensures forall x :: x in a <==> x in b
  {
    forall x ensures x in a <==> x in b {
      assert x in a <==> x in multiset(a);
      assert x in b <==> x in multiset(b);
    }
  }

  lemma RangeParse(lib: Library, fields: Fields, body: Json, d: Document)
    requires ParseRange(lib, fields, body).Ok?
    ensures var n := ParseRange(lib, fields, body).value;
            && n.Range? && WellFormed(n)
            && Matches(d, n) == EvalRange(d, fields, body)
  {
    var name := OnlyKey(body.members);
    var members := body.members[name].members;
    var n := ParseRange(lib, fields, body).value;
    forall op | op in members
      ensures op in OPERATORS && op != "format" && ScalarOf(members[op]) == Some(n.bounds[op]) && Sized(n.bounds[op])
    {
      assert TypedScalar(lib, fields[name].kind, members[op]).Ok?;
    }
    forall v | v in d.values(n.field)
      ensures InBounds(d, v, members) <==> Within(d, v, n.bounds)
    {
    }
  }

  lemma TextParse(lib: Library, fields: Fields, kind: string, body: Json, d: Document)
    requires (kind == "match" || kind == "match_phrase") && ParseText(lib, fields, kind, body).Ok?
    ensures var n := ParseText(lib, fields, kind, body).value;
            && n.Search? && WellFormed(n)
            && Matches(d, n) == EvalSearch(d, fields, kind, body)
  {
    var raw := body.members[OnlyKey(body.members)].members;
    TwoKeys(raw, "query", if kind == "match" then "operator" else "slop");
  }

  lemma TwoKeys<V>(m: map<string, V>, a: string, b: string)
    requires |m| == 2 && a in m && b in m && a != b
    ensures m.Keys == {a, b}
  {
    assert |m.Keys - {a, b}| == 0;
  }

  lemma SimpleParse(lib: Library, fields: Fields, body: Json, d: Document)
    ensures ParseTerm(lib, fields, body, false).Ok? ==>
              var n := ParseTerm(lib, fields, body, false).value;
              n.Term? && WellFormed(n) && Matches(d, n) == EvalTerm(d, fields, body)
    ensures ParseExists(fields, body).Ok? ==>
              var n := ParseExists(fields, body).value;
              && n.Exists? && WellFormed(n)
              && Matches(d, n) == EvalExists(d, fields, body)
  {
    if ParseExists(fields, body).Ok? {
      assert body.members.Keys == {OnlyKey(body.members)};
    }
  }

  /** Every clause but `bool` means what the caller wrote. */
  lemma LeafParse(lib: Library, fields: Fields, m: map<string, Json>, d: Document)
    requires ParseLeaf(lib, fields, m).Ok? && "bool" !in m
    ensures var n := ParseLeaf(lib, fields, m).value; WellFormed(n) && Matches(d, n) == EvalLeaf(d, fields, m)
  {
    if "match_all" in m {
    } else if "term" in m {
      SimpleParse(lib, fields, m["term"], d);
    } else if "terms" in m {
      TermsParse(lib, fields, m["terms"], d);
    } else if "range" in m {
      RangeParse(lib, fields, m["range"], d);
    } else if "exists" in m {
      SimpleParse(lib, fields, m["exists"], d);
    } else if "match" in m {
      TextParse(lib, fields, "match", m["match"], d);
    } else {
      TextParse(lib, fields, "match_phrase", m["match_phrase"], d);
    }
  }

  /** The parsed tree of an accepted query means what the caller's JSON means. */
  lemma {:induction false} ParseKeepsMeaning(lib: Library, fields: Fields, limits: Limits, j: Json, depth: nat,
                                             clauses: nat,
                                             d: Document)
    requires ParseNode(lib, fields, limits, j, depth, clauses).Parsed?
    ensures var n := ParseNode(lib, fields, limits, j, depth, clauses).node;
            WellFormed(n) && Matches(d, n) == Eval(d, fields, j)
    decreases j, 2
  {
    if "bool" in j.members {
      BoolKeepsMeaning(lib, fields, limits, j.members["bool"], depth, clauses + 1, d);
    } else {
      LeafParse(lib, fields, j.members, d);
    }
  }

  predicate Means(d: Document, fields: Fields, items: seq<Json>, nodes: seq<Node>) {
    |items| == |nodes| && forall i | 0 <= i < |items| ::
                            WellFormed(nodes[i]) && Matches(d, nodes[i]) == Eval(d, fields, items[i])
  }

  lemma {:induction false} BoolKeepsMeaning(lib: Library, fields: Fields, limits: Limits, body: Json, depth: nat,
                                            clauses: nat,
                                            d: Document)
    requires ParseBool(lib, fields, limits, body, depth, clauses).Parsed?
    ensures var n := ParseBool(lib, fields, limits, body, depth, clauses).node;
            WellFormed(n) && Matches(d, n) == EvalBool(d, fields, body)
    decreases body, 2
  {
    var filter := ParseSection(lib, fields, limits, body, "filter", depth, clauses);
    var should := ParseSection(lib, fields, limits, body, "should", depth, filter.clauses);
    var mustNot := ParseSection(lib, fields, limits, body, "must_not", depth, should.clauses);
    SectionKeepsMeaning(lib, fields, limits, body, "filter", depth, clauses, d);
    SectionKeepsMeaning(lib, fields, limits, body, "should", depth, filter.clauses, d);
    SectionKeepsMeaning(lib, fields, limits, body, "must_not", depth, should.clauses, d);
    BoolMeans(d, fields, body, filter.nodes, should.nodes, mustNot.nodes);
  }

  /** A section of a `bool` body and the nodes parsed from it. */
  predicate SectionFits(d: Document, fields: Fields, body: Json, key: string, nodes: seq<Node>)
    requires body.Object?
  {
    if key in body.members
    then body.members[key].Array? && nodes != [] && Means(d, fields, body.members[key].items, nodes)
    else nodes == []
  }

  lemma SectionTruth(d: Document, fields: Fields, body: Json, key: string, nodes: seq<Node>)
    requires body.Object? && SectionFits(d, fields, body, key, nodes)
    ensures forall c <- nodes :: WellFormed(c)
    ensures key in body.members ==> EvalAll(d, fields, body.members[key]) == forall c <- nodes :: Matches(d, c)
    ensures key in body.members ==> EvalSome(d, fields, body.members[key]) == exists c <- nodes :: Matches(d, c)
  {
    if key in body.members {
      ListMeans(fields, body.members[key].items, nodes, d);
    }
  }

  /** Clause by clause the same truth, so all and some of both lists hold together. */
  lemma ListMeans(names: Fields, all: seq<Json>, ns: seq<Node>, d: Document)
    requires |all| == |ns| && forall i | 0 <= i < |ns| :: Eval(d, names, all[i]) == Matches(d, ns[i])
    ensures (forall x <- all :: Eval(d, names, x)) == (forall c <- ns :: Matches(d, c))
    ensures (exists x <- all :: Eval(d, names, x)) == (exists c <- ns :: Matches(d, c))
  {
    forall i | 0 <= i < |ns|
      ensures Eval(d, names, all[i]) == Matches(d, ns[i]) && all[i] in all && ns[i] in ns
    {
    }
  }

  /** A body that asks for one `should` clause where it gives any, and leaves `must` alone. */
  predicate AsksForOne(m: map<string, Json>) {
    && "must" !in m && ("minimum_should_match" in m ==> "should" in m)
    && ("should" in m ==> m["should"].Array? && IntegerOf(m, "minimum_should_match") == Some(1))
  }

  lemma {:induction false} CountIsSome(d: Document, names: Fields, items: seq<Json>)
    ensures 1 <= EvalCount(d, names, items) <==> EvalSome(d, names, Array(items))
  {
    if items != [] {
      CountIsSome(d, names, items[1..]);
      assert items == [items[0]] + items[1..];
    }
  }

  lemma OneOfShould(d: Document, names: Fields, body: Json)
    requires body.Object? && AsksForOne(body.members)
    ensures EvalShould(d, names, body) <==> ("should" in body.members ==> EvalSome(d, names, body.members["should"]))
  {
    if "should" in body.members {
      CountIsSome(d, names, body.members["should"].items);
    }
  }

  lemma BoolMeans(d: Document, fields: Fields, body: Json, filter: seq<Node>, should: seq<Node>, mustNot: seq<Node>)
    requires body.Object? && AsksForOne(body.members) && SectionFits(d, fields, body, "filter", filter)
    requires SectionFits(d, fields, body, "should", should) && SectionFits(d, fields, body, "must_not", mustNot)
    ensures WellFormed(Bool(filter, should, mustNot))
            && Matches(d, Bool(filter, should, mustNot)) == EvalBool(d, fields, body)
  {
    SectionTruth(d, fields, body, "filter", filter);
    SectionTruth(d, fields, body, "should", should);
    SectionTruth(d, fields, body, "must_not", mustNot);
    OneOfShould(d, fields, body);
  }

  lemma {:induction false} SectionKeepsMeaning(lib: Library, fields: Fields, limits: Limits, body: Json, key: string,
                                               depth: nat,
                                               clauses: nat, d: Document)
    requires body.Object? && ParseSection(lib, fields, limits, body, key, depth, clauses).ParsedList?
    ensures var nodes := ParseSection(lib, fields, limits, body, key, depth, clauses).nodes;
            SectionFits(d, fields, body, key, nodes)
    decreases body, 1
  {
    if key in body.members {
      ListKeepsMeaning(lib, fields, limits, body.members[key].items, depth + 1, clauses, d);
    }
  }

  lemma {:induction false} ListKeepsMeaning(lib: Library, fields: Fields, limits: Limits, items: seq<Json>, depth: nat,
                                            clauses: nat,
                                            d: Document)
    requires ParseNodes(lib, fields, limits, items, depth, clauses).ParsedList?
    ensures Means(d, fields, items, ParseNodes(lib, fields, limits, items, depth, clauses).nodes)
    decreases items, 0
  {
    if items != [] {
      var front := ParseNodes(lib, fields, limits, items[..|items| - 1], depth, clauses);
      var last := ParseNode(lib, fields, limits, items[|items| - 1], depth, front.clauses);
      ListKeepsMeaning(lib, fields, limits, items[..|items| - 1], depth, clauses, d);
      ParseKeepsMeaning(lib, fields, limits, items[|items| - 1], depth, front.clauses, d);
      MeansExtends(d, fields, items, front.nodes, last.node);
    }
  }

  lemma MeansExtends(d: Document, fields: Fields, items: seq<Json>, nodes: seq<Node>, n: Node)
    requires items != [] && Means(d, fields, items[..|items| - 1], nodes)
    requires WellFormed(n) && Matches(d, n) == Eval(d, fields, items[|items| - 1])
    ensures Means(d, fields, items, nodes + [n])
  {
    var front := items[..|items| - 1];
    forall i | 0 <= i < |items|
      ensures WellFormed((nodes + [n])[i]) && Matches(d, (nodes + [n])[i]) == Eval(d, fields, items[i])
    {
      if i < |front| {
        assert front[i] == items[i];
      }
    }
  }

  // ----- the canonical form means the same

  lemma TermsCanonical(lib: Library, f: string, vs: seq<Scalar>, d: Document)
    requires forall v <- vs :: Sized(v)
    ensures Eval(d, IDENTITY, CanonicalNode(lib, Terms(f, vs))) == Matches(d, Terms(f, vs))
  {
    var items := seq(|vs|, i requires 0 <= i < |vs| => ScalarJson(vs[i]));
    forall i | 0 <= i < |vs|
      ensures ScalarOf(items[i]) == Some(vs[i]) && items[i] in items && vs[i] in vs
    {
      ScalarRoundTrip(vs[i]);
    }
    OneHas(f, Array(items));
    EvalOne(d, IDENTITY, "terms", One(f, Array(items)));
  }

  lemma RangeCanonical(lib: Library, f: string, bounds: map<string, Scalar>, d: Document)
    requires forall op <- bounds.Keys :: op in OPERATORS && Sized(bounds[op])
    ensures Eval(d, IDENTITY, CanonicalNode(lib, Range(f, bounds))) == Matches(d, Range(f, bounds))
  {
    BoundsMean(bounds, d);
    OneHas(f, BoundsJson(bounds));
    EvalOne(d, IDENTITY, "range", One(f, BoundsJson(bounds)));
  }

  lemma BoundsMean(bounds: map<string, Scalar>, d: Document)
    requires forall op <- bounds.Keys :: op in OPERATORS && Sized(bounds[op])
    ensures forall v: Scalar :: InBounds(d, v, BoundsJson(bounds).members) <==> Within(d, v, bounds)
  {
    var m := BoundsJson(bounds).members;
    forall op | op in bounds
      ensures op != "format" && ScalarOf(m[op]) == Some(bounds[op])
    {
      ScalarRoundTrip(bounds[op]);
    }
  }

  /** A one-key query means what its body means. */
  lemma EvalOne(d: Document, names: Fields, key: string, body: Json)
    ensures Eval(d, names, One(key, body)) == if key == "bool" then EvalBool(d, names, body)
            else EvalLeaf(d, names, map[key := body])
  {
    OneHas(key, body);
  }

  lemma TermCanonical(lib: Library, f: string, v: Scalar, d: Document)
    requires Sized(v)
    ensures Eval(d, IDENTITY, CanonicalNode(lib, Term(f, v))) == Matches(d, Term(f, v))
  {
    ScalarRoundTrip(v);
    OneHas(f, ScalarJson(v));
    EvalOne(d, IDENTITY, "term", One(f, ScalarJson(v)));
  }

  lemma ExistsCanonical(lib: Library, f: string, d: Document)
    ensures Eval(d, IDENTITY, CanonicalNode(lib, Exists(f))) == Matches(d, Exists(f))
  {
    OneHas("field", String(f));
    EvalOne(d, IDENTITY, "exists", One("field", String(f)));
  }

  lemma MatchCanonical(lib: Library, f: string, q: string, d: Document)
    ensures Eval(d, IDENTITY, CanonicalNode(lib, Search("match", f, q))) == d.found(AllWords, f, q)
  {
    var raw := map["query" := String(q), "operator" := String("and")];
    assert MannerOf("match", raw) == Some(AllWords);
    SearchMeans("match", f, q, raw, AllWords, d);
  }

  lemma PhraseCanonical(lib: Library, f: string, q: string, d: Document)
    ensures Eval(d, IDENTITY, CanonicalNode(lib, Search("match_phrase", f, q))) == d.found(Phrase(0), f, q)
  {
    var raw := map["query" := String(q), "slop" := Number("0")];
    ScalarRoundTrip(Integer(0));
    assert MannerOf("match_phrase", raw) == Some(Phrase(0));
    SearchMeans("match_phrase", f, q, raw, Phrase(0), d);
  }

  lemma SearchCanonical(lib: Library, kind: string, f: string, q: string, d: Document)
    requires kind == "match" || kind == "match_phrase"
    ensures Eval(d, IDENTITY, CanonicalNode(lib, Search(kind, f, q))) == Matches(d, Search(kind, f, q))
  {
    if kind == "match" {
      MatchCanonical(lib, f, q, d);
    } else {
      PhraseCanonical(lib, f, q, d);
    }
  }

  lemma SearchMeans(kind: string, f: string, q: string, raw: map<string, Json>, manner: Manner, d: Document)
    requires (kind == "match" || kind == "match_phrase") && MannerOf(kind, raw) == Some(manner)
    requires "query" in raw && raw["query"] == String(q)
    ensures Eval(d, IDENTITY, One(kind, One(f, Object(raw)))) == d.found(manner, f, q)
  {
    OneHas(f, Object(raw));
    EvalOne(d, IDENTITY, kind, One(f, Object(raw)));
  }

  lemma MatchAllCanonical(lib: Library, d: Document)
    ensures Eval(d, IDENTITY, CanonicalNode(lib, MatchAll))
  {
    EvalOne(d, IDENTITY, "match_all", Object(map[]));
  }

  lemma {:induction false} CanonicalKeepsMeaning(lib: Library, n: Node, d: Document)
    requires WellFormed(n)
    ensures Eval(d, IDENTITY, CanonicalNode(lib, n)) == Matches(d, n)
    decreases n, 1
  {
    match n
    case Terms(f, vs) => TermsCanonical(lib, f, vs, d);
    case Range(f, bounds) => RangeCanonical(lib, f, bounds, d);
    case Bool(_, _, _) => BoolCanonical(lib, n, d);
    case Term(f, v) => TermCanonical(lib, f, v, d);
    case Exists(f) => ExistsCanonical(lib, f, d);
    case Search(kind, f, q) => SearchCanonical(lib, kind, f, q, d);
    case MatchAll => MatchAllCanonical(lib, d);
  }

  /** A sorted section keeps "all" and "some". */
  predicate SectionMeans(lib: Library, ns: seq<Node>, d: Document) {
    && EvalAll(d, IDENTITY, Array(CanonicalNodes(lib, ns))) == AllMatch(d, ns)
    && EvalSome(d, IDENTITY, Array(CanonicalNodes(lib, ns))) == SomeMatch(d, ns)
  }

  lemma {:induction false} SectionCanonical(lib: Library, ns: seq<Node>, d: Document)
    requires forall c <- ns :: WellFormed(c)
    ensures SectionMeans(lib, ns, d)
    decreases ns, 0
  {
    var all := Each(lib, ns);
    forall i | 0 <= i < |ns|
      ensures Eval(d, IDENTITY, all[i]) == Matches(d, ns[i])
    {
      CanonicalKeepsMeaning(lib, ns[i], d);
    }
    SortedMeans(lib, all, ns, d);
  }

  lemma SortedMeans(lib: Library, all: seq<Json>, ns: seq<Node>, d: Document)
    requires |all| == |ns| && forall i | 0 <= i < |ns| :: Eval(d, IDENTITY, all[i]) == Matches(d, ns[i])
    ensures var sorted := Array(Sort(lib.encode, all));
            && EvalAll(d, IDENTITY, sorted) == (forall c <- ns :: Matches(d, c))
            && EvalSome(d, IDENTITY, sorted) == (exists c <- ns :: Matches(d, c))
  {
    SameElements(Sort(lib.encode, all), all);
    ListMeans(IDENTITY, all, ns, d);
  }

  lemma BoolBody(f: seq<Json>, s: seq<Json>, m: seq<Json>)
    ensures var body := BoolJson(f, s, m).members;
            && ("filter" in body <==> f != []) && ("should" in body <==> s != []) && ("must_not" in body <==> m != [])
            && (f != [] ==> body["filter"] == Array(f)) && (s != [] ==> body["should"] == Array(s))
            && (m != [] ==> body["must_not"] == Array(m))
            && AsksForOne(body)
  {
    assert IntegerOf(map["minimum_should_match" := Number("1")], "minimum_should_match") == Some(1) by {
      ScalarRoundTrip(Integer(1));
    }
  }

  lemma BoolTruth(d: Document, f: seq<Json>, s: seq<Json>, m: seq<Json>)
    ensures EvalBool(d, IDENTITY, BoolJson(f, s, m))
       <==> (f != [] ==> EvalAll(d, IDENTITY, Array(f))) && (s != [] ==> EvalSome(d, IDENTITY, Array(s)))
            && (m != [] ==> !EvalSome(d, IDENTITY, Array(m)))
  {
    BoolBody(f, s, m);
    OneOfShould(d, IDENTITY, BoolJson(f, s, m));
  }

  predicate AllMatch(d: Document, ns: seq<Node>) {
    forall c <- ns :: Matches(d, c)
  }

  predicate SomeMatch(d: Document, ns: seq<Node>) {
    exists c <- ns :: Matches(d, c)
  }

  lemma EvalBoolOne(d: Document, j: Json, body: Json)
    requires j == One("bool", body)
    ensures Eval(d, IDENTITY, j) == EvalBool(d, IDENTITY, body)
  {
    OneHas("bool", body);
  }

  lemma {:induction false} BoolCanonical(lib: Library, n: Node, d: Document)
    requires n.Bool? && WellFormed(n)
    ensures Eval(d, IDENTITY, CanonicalNode(lib, n)) == Matches(d, n)
    decreases n, 0
  {
    var f, s, m := CanonicalNodes(lib, n.filter), CanonicalNodes(lib, n.should), CanonicalNodes(lib, n.mustNot);
    SectionCanonical(lib, n.filter, d);
    SectionCanonical(lib, n.should, d);
    SectionCanonical(lib, n.mustNot, d);
    CanonicalBool(lib, n, f, s, m);
    EvalBoolOne(d, CanonicalNode(lib, n), BoolJson(f, s, m));
    BoolTruth(d, f, s, m);
    BoolMatches(d, n);
  }

  lemma BoolMatches(d: Document, n: Node)
    requires n.Bool?
    ensures Matches(d, n)
       <==> AllMatch(d, n.filter) && (n.should == [] || SomeMatch(d, n.should)) && !SomeMatch(d, n.mustNot)
  {
  }

  // ----- the plan

  /** The format that reads the times of a query's range. */
  const TIME_FORMAT := "strict_date_optional_time_nanos"

  predicate InTimeRange(d: Document, field: string, start: string, end: string) {
    exists v <- d.values(field) ::
      d.atMost(d.bound(TIME_FORMAT, Text(start)), v) && !d.atMost(d.bound(TIME_FORMAT, Text(end)), v)
  }

  predicate Scoped(d: Document, def: Definition, q: Query) {
    && InTimeRange(d, VendorName(def, def.timestampField), q.start, q.end)
    && (def.tenantField != "" ==> Text(q.tenant) in d.values(VendorName(def, def.tenantField)))
    && (def.sourceField != "" ==> Text(q.source) in d.values(VendorName(def, def.sourceField)))
  }

  lemma TimeBounds(d: Document, v: Scalar, bounds: map<string, Json>, start: string, end: string)
    requires bounds.Keys == {"format", "gte", "lt"} && bounds["format"] == String(TIME_FORMAT)
    requires bounds["gte"] == String(start) && bounds["lt"] == String(end)
    ensures InBounds(d, v, bounds) <==>
            d.atMost(d.bound(TIME_FORMAT, Text(start)), v) && !d.atMost(d.bound(TIME_FORMAT, Text(end)), v)
  {
    assert "gte" in bounds.Keys && "lt" in bounds.Keys;
  }

  lemma TimeFilterMeans(d: Document, field: string, start: string, end: string)
    ensures Eval(d, IDENTITY, TimeFilter(field, start, end)) == InTimeRange(d, field, start, end)
  {
    var bounds := map["format" := String(TIME_FORMAT), "gte" := String(start), "lt" := String(end)];
    forall v: Scalar
      ensures InBounds(d, v, bounds) <==>
              d.atMost(d.bound(TIME_FORMAT, Text(start)), v) && !d.atMost(d.bound(TIME_FORMAT, Text(end)), v)
    {
      TimeBounds(d, v, bounds, start, end);
    }
    OneHas(field, Object(bounds));
    EvalOne(d, IDENTITY, "range", One(field, Object(bounds)));
  }

  /** All filters of a list hold. */
  predicate AllHold(d: Document, fs: seq<Json>) {
    forall x <- fs :: Eval(d, IDENTITY, x)
  }

  lemma AllOfConcat(d: Document, a: seq<Json>, b: seq<Json>)
    ensures AllHold(d, a + b) <==> AllHold(d, a) && AllHold(d, b)
  {
    assert (forall x <- a :: x in a + b) && (forall x <- b :: x in a + b);
  }

  lemma AllOfOne(d: Document, x: Json)
    ensures AllHold(d, [x]) <==> Eval(d, IDENTITY, x)
  {
    assert x in [x];
  }

  lemma ScopeFilterMeans(d: Document, def: Definition, field: string, value: string)
    ensures AllHold(d, ScopeFilter(def, field, value)) <==>
            (field != "" ==> Text(value) in d.values(VendorName(def, field)))
  {
    if field != "" {
      var name := VendorName(def, field);
      OneHas(name, String(value));
      EvalOne(d, IDENTITY, "term", One(name, String(value)));
      AllOfOne(d, One("term", One(name, String(value))));
    }
  }

  lemma FiltersMean(d: Document, def: Definition, q: Query)
    ensures AllHold(d, MandatoryFilters(def, q)) <==> Scoped(d, def, q)
  {
    var time := TimeFilter(VendorName(def, def.timestampField), q.start, q.end);
    TimeFilterMeans(d, VendorName(def, def.timestampField), q.start, q.end);
    ScopeFilterMeans(d, def, def.tenantField, q.tenant);
    ScopeFilterMeans(d, def, def.sourceField, q.source);
    AllOfOne(d, time);
    AllOfConcat(d, [time], ScopeFilter(def, def.tenantField, q.tenant));
    AllOfConcat(d, [time] + ScopeFilter(def, def.tenantField, q.tenant), ScopeFilter(def, def.sourceField, q.source));
  }

  lemma FilterOnly(d: Document, items: seq<Json>)
    ensures Eval(d, IDENTITY, One("bool", One("filter", Array(items)))) == AllHold(d, items)
  {
    OneHas("filter", Array(items));
    EvalOne(d, IDENTITY, "bool", One("filter", Array(items)));
  }

  lemma PlanMeans(lib: Library, def: Definition, q: Query, n: Node, d: Document)
    ensures Eval(d, IDENTITY, PlanQuery(lib, def, q, n))
       <==> AllHold(d, MandatoryFilters(def, q)) && Eval(d, IDENTITY, CanonicalNode(lib, n))
  {
    FilterOnly(d, MandatoryFilters(def, q) + [CanonicalNode(lib, n)]);
    AllOfConcat(d, MandatoryFilters(def, q), [CanonicalNode(lib, n)]);
    AllOfOne(d, CanonicalNode(lib, n));
  }

  /**
   * A document matches the compiled plan exactly when it matches the caller's JSON, lies in the
   * half-open time range, and carries the tenant and source where those fields are configured.
   */
  lemma PlanMatchesExactly(lib: Library, def: Definition, q: Query, limits: Limits, j: Json, depth: nat, clauses: nat,
                           d: Document)
    requires ParseNode(lib, def.fields, limits, j, depth, clauses).Parsed?
    ensures var n := ParseNode(lib, def.fields, limits, j, depth, clauses).node;
            Eval(d, IDENTITY, PlanQuery(lib, def, q, n)) <==> Eval(d, def.fields, j) && Scoped(d, def, q)
  {
    var n := ParseNode(lib, def.fields, limits, j, depth, clauses).node;
    ParseKeepsMeaning(lib, def.fields, limits, j, depth, clauses, d);
    CanonicalKeepsMeaning(lib, n, d);
    FiltersMean(d, def, q);
    PlanMeans(lib, def, q, n, d);
  }
}
