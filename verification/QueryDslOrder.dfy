/** The canonical form does not depend on the order of bool clauses or terms, at any depth. */
module QueryDslOrder {
  import opened Decimal
  import opened QueryDslSyntax
  import opened QueryDslParser
  import opened QueryDslCompiler
  import opened QueryDslLimits
  import opened Sorting
  import opened Wrappers

  // ----- queries that differ only in order

  /** `b` is `a` with the clauses of its bools and the values of its terms rearranged. */
  ghost predicate Reordered(a: Json, b: Json)
    decreases a, 2
  {
    && a.Object? && b.Object? && a.members.Keys == b.members.Keys
    && if "bool" in a.members then ReorderedBool(a.members["bool"], b.members["bool"])
       else if "terms" in a.members then ReorderedTerms(a.members["terms"], b.members["terms"])
       else a == b
  }

  ghost predicate ReorderedBool(a: Json, b: Json)
    decreases a, 2
  {
    && a.Object? && b.Object? && a.members.Keys == b.members.Keys
    && (forall key <- a.members.Keys :: key in {"filter", "should", "must_not"} ==>
          ReorderedList(a.members[key], b.members[key]))
    && ("minimum_should_match" in a.members ==> a.members["minimum_should_match"] == b.members["minimum_should_match"])
  }

  ghost predicate ReorderedList(a: Json, b: Json)
    decreases a, 2
  {
    if a.Array? && b.Array? then ReorderedItems(a.items, b.items) else a == b
  }

  /** Each element of `a` corresponds to a different element of `b`. */
  ghost predicate ReorderedItems(a: seq<Json>, b: seq<Json>)
    decreases a, 0
  {
    |a| == |b| && (a == [] || exists k | 0 <= k < |b| :: Reordered(a[0], b[k]) && ReorderedItems(a[1..], Without(b, k)))
  }

  function Without<T>(s: seq<T>, k: nat): (r: seq<T>)
    requires k < |s|
    ensures |r| == |s| - 1
  {
    s[..k] + s[k + 1..]
  }

  ghost predicate ReorderedTerms(a: Json, b: Json) {
    if a.Object? && b.Object? && |a.members| == 1 && a.members.Keys == b.members.Keys
       && a.members[OnlyKey(a.members)].Array? && b.members[OnlyKey(a.members)].Array?
    then multiset(a.members[OnlyKey(a.members)].items) == multiset(b.members[OnlyKey(a.members)].items)
    else a == b
  }

  // ----- sorting forgets order

  lemma SortForgets<T(!new)>(key: T -> string, a: seq<T>, b: seq<T>)
    requires Injective(key) && multiset(a) == multiset(b)
    ensures Sort(key, a) == Sort(key, b)
  {
    SortSorts(key, a);
    SortSorts(key, b);
    SortedUnique(key, Sort(key, a), Sort(key, b));
  }

  lemma WithoutMultiset<T>(s: seq<T>, k: nat)
    requires k < |s|
    ensures multiset(s) == multiset{s[k]} + multiset(Without(s, k))
  {
    assert s == s[..k] + [s[k]] + s[k + 1..];
  }

  lemma ScalarKeyInjective(lib: Library)
    requires Injective(lib.encode)
    ensures Injective(ScalarKey(lib))
  {
    forall x, y | ScalarKey(lib)(x) == ScalarKey(lib)(y)
      ensures x == y
    {
      assert ScalarJson(x) == ScalarJson(y);
      if x.Integer? && y.Integer? {
        ShowInjective(x.n, y.n);
      }
    }
  }

  // ----- terms

  lemma {:induction false} TypedMultiset(lib: Library, kind: Kind, a: seq<Json>, b: seq<Json>)
    requires multiset(a) == multiset(b)
    requires TypedScalars(lib, kind, a).Ok? && TypedScalars(lib, kind, b).Ok?
    ensures multiset(TypedScalars(lib, kind, a).value) == multiset(TypedScalars(lib, kind, b).value)
    decreases |a|
  {
    assert |a| == |multiset(a)| == |multiset(b)| == |b|;
    if a != [] {
      var k := SamePlace(a, b);
      TypedWithout(lib, kind, a, 0);
      TypedWithout(lib, kind, b, k);
      TypedMultiset(lib, kind, Without(a, 0), Without(b, k));
      WithoutMultiset(TypedScalars(lib, kind, a).value, 0);
      WithoutMultiset(TypedScalars(lib, kind, b).value, k);
    }
  }

  /** The first element of `a` also stands somewhere in `b`; the rests have the same elements. */
  lemma SamePlace<T>(a: seq<T>, b: seq<T>) returns (k: nat)
    requires a != [] && multiset(a) == multiset(b)
    ensures k < |b| && b[k] == a[0] && multiset(Without(a, 0)) == multiset(Without(b, k))
  {
    assert a[0] in multiset(b);
    k :| 0 <= k < |b| && b[k] == a[0];
    WithoutMultiset(a, 0);
    WithoutMultiset(b, k);
    var one := multiset{a[0]};
    assert multiset(Without(a, 0)) == multiset(a) - one && multiset(Without(b, k)) == multiset(b) - one;
  }

  lemma {:induction false} TypedWithout(lib: Library, kind: Kind, b: seq<Json>, k: nat)
    requires k < |b| && TypedScalars(lib, kind, b).Ok?
    ensures TypedScalars(lib, kind, Without(b, k)) == Ok(Without(TypedScalars(lib, kind, b).value, k))
    decreases |b|
  {
    var vs := TypedScalars(lib, kind, b).value;
    TypedFirst(lib, kind, b);
    if k == 0 {
      WithoutFirst(b);
      WithoutFirst(vs);
    } else {
      TypedWithout(lib, kind, b[1..], k - 1);
      WithoutLater(b, k);
      WithoutLater(vs, k);
      TypedJoins(lib, kind, b[0], Without(b[1..], k - 1));
    }
  }

  lemma TypedFirst(lib: Library, kind: Kind, b: seq<Json>)
    requires b != [] && TypedScalars(lib, kind, b).Ok?
    ensures TypedScalars(lib, kind, b[1..]) == Ok(TypedScalars(lib, kind, b).value[1..])
    ensures TypedScalar(lib, kind, b[0]) == Ok(TypedScalars(lib, kind, b).value[0])
  {
    var vs := TypedScalars(lib, kind, b).value;
    assert vs[1..] == TypedScalars(lib, kind, b[1..]).value;
  }

  lemma TypedJoins(lib: Library, kind: Kind, x: Json, rest: seq<Json>)
    requires TypedScalar(lib, kind, x).Ok? && TypedScalars(lib, kind, rest).Ok?
    ensures TypedScalars(lib, kind, [x] + rest)
            == Ok([TypedScalar(lib, kind, x).value] + TypedScalars(lib, kind, rest).value)
  {
    assert ([x] + rest)[0] == x && ([x] + rest)[1..] == rest;
  }

  lemma WithoutFirst<T>(s: seq<T>)
    requires s != []
    ensures Without(s, 0) == s[1..]
  {
  }

  lemma WithoutAt<T>(s: seq<T>, k: nat, i: nat)
    requires k < |s| && i < |s| - 1
    ensures Without(s, k)[i] == s[if i < k then i else i + 1]
  {
  }

  lemma WithoutLater<T>(s: seq<T>, k: nat)
    requires 0 < k < |s|
    ensures Without(s, k) == [s[0]] + Without(s[1..], k - 1)
  {
  }

  lemma TermsForgetOrder(lib: Library, fields: Fields, a: Json, b: Json)
    requires Injective(lib.encode) && ReorderedTerms(a, b)
    requires ParseTerm(lib, fields, a, true).Ok? && ParseTerm(lib, fields, b, true).Ok?
    ensures ParseTerm(lib, fields, a, true) == ParseTerm(lib, fields, b, true)
  {
    var name := OnlyKey(a.members);
    if a != b {
      assert a.members.Keys == b.members.Keys == {name};
      OnlyKeyIs(b.members, name);
      var xs, ys := a.members[name].items, b.members[name].items;
      TypedMultiset(lib, fields[name].kind, xs, ys);
      ScalarKeyInjective(lib);
      SortForgets(ScalarKey(lib), TypedScalars(lib, fields[name].kind, xs).value,
                  TypedScalars(lib, fields[name].kind, ys).value);
    }
  }

  lemma OnlyKeyIs<V>(m: map<string, V>, k: string)
    requires m.Keys == {k}
    ensures |m| == 1 && OnlyKey(m) == k
  {
    assert |m.Keys| == 1;
    assert OnlyKey(m) in m.Keys;
  }

  // ----- whole queries

  /** `j` parses to `n` from some depth and count. */
  ghost predicate Yields(lib: Library, fields: Fields, j: Json, n: Node) {
    exists l: Limits, d: nat, c: nat :: YieldsAt(lib, fields, j, n, l, d, c)
  }

  predicate YieldsAt(lib: Library, fields: Fields, j: Json, n: Node, l: Limits, d: nat, c: nat) {
    ParseNode(lib, fields, l, j, d, c).Parsed? && ParseNode(lib, fields, l, j, d, c).node == n
  }

  /** Pairwise, `items` parse to `ns`. */
  ghost predicate AllYield(lib: Library, fields: Fields, items: seq<Json>, ns: seq<Node>) {
    |items| == |ns| && forall i | 0 <= i < |items| :: Yields(lib, fields, items[i], ns[i])
  }

  lemma {:induction false} ListYields(lib: Library, fields: Fields, l: Limits, items: seq<Json>, d: nat, c: nat)
    requires ParseNodes(lib, fields, l, items, d, c).ParsedList?
    ensures AllYield(lib, fields, items, ParseNodes(lib, fields, l, items, d, c).nodes)
    decreases |items|
  {
    if items != [] {
      var front := items[..|items| - 1];
      var a := ParseNodes(lib, fields, l, front, d, c);
      ListYields(lib, fields, l, front, d, c);
      var n := ParseNode(lib, fields, l, items[|items| - 1], d, a.clauses).node;
      assert YieldsAt(lib, fields, items[|items| - 1], n, l, d, a.clauses);
      YieldsExtend(lib, fields, items, a.nodes, n);
    }
  }

  lemma YieldsExtend(lib: Library, fields: Fields, items: seq<Json>, ns: seq<Node>, n: Node)
    requires items != [] && AllYield(lib, fields, items[..|items| - 1], ns)
             && Yields(lib, fields, items[|items| - 1], n)
    ensures AllYield(lib, fields, items, ns + [n])
  {
    var front := items[..|items| - 1];
    forall i | 0 <= i < |items|
      ensures Yields(lib, fields, items[i], (ns + [n])[i])
    {
      if i < |front| {
        assert front[i] == items[i];
      }
    }
  }

  /** The canonical form of an accepted query is the same for every reordering of it. */
  lemma {:induction false} OrderForgotten(lib: Library, fields: Fields, a: Json, n: Node, b: Json, m: Node)
    requires Injective(lib.encode) && Reordered(a, b)
    requires Yields(lib, fields, a, n) && Yields(lib, fields, b, m)
    ensures CanonicalNode(lib, n) == CanonicalNode(lib, m)
    decreases a, 2
  {
    var l1: Limits, d1: nat, c1: nat :| YieldsAt(lib, fields, a, n, l1, d1, c1);
    var l2: Limits, d2: nat, c2: nat :| YieldsAt(lib, fields, b, m, l2, d2, c2);
    if "bool" in a.members {
      BoolForgotten(lib, fields, a.members["bool"], n, l1, d1, c1 + 1, b.members["bool"], m, l2, d2, c2 + 1);
    } else if "terms" in a.members {
      assert a.members.Keys == {"terms"} by { SingleKey(a.members); }
      TermsForgetOrder(lib, fields, a.members["terms"], b.members["terms"]);
    }
  }

  lemma {:induction false} BoolForgotten(lib: Library, fields: Fields, a: Json, n: Node, l1: Limits, d1: nat, c1: nat,
                                         b: Json, m: Node, l2: Limits, d2: nat, c2: nat)
    requires Injective(lib.encode) && ReorderedBool(a, b)
    requires var p := ParseBool(lib, fields, l1, a, d1, c1); p.Parsed? && p.node == n
    requires var p := ParseBool(lib, fields, l2, b, d2, c2); p.Parsed? && p.node == m
    ensures CanonicalNode(lib, n) == CanonicalNode(lib, m)
    decreases a, 2
  {
    var f1, s1, m1 := SectionsOf(lib, fields, l1, a, d1, c1);
    var f2, s2, m2 := SectionsOf(lib, fields, l2, b, d2, c2);
    SectionForgotten(lib, fields, a, l1, d1, c1, b, l2, d2, c2, "filter");
    SectionForgotten(lib, fields, a, l1, d1, f1.clauses, b, l2, d2, f2.clauses, "should");
    SectionForgotten(lib, fields, a, l1, d1, s1.clauses, b, l2, d2, s2.clauses, "must_not");
    SameSections(lib, n, m);
  }

  /** The sections an accepted `bool` body was parsed from. */
  lemma SectionsOf(lib: Library, fields: Fields, l: Limits, a: Json, d: nat, c: nat)
    returns (f: ParsedList, s: ParsedList, m: ParsedList)
    requires ParseBool(lib, fields, l, a, d, c).Parsed?
    ensures a.Object? && f == ParseSection(lib, fields, l, a, "filter", d, c) && f.ParsedList?
    ensures s == ParseSection(lib, fields, l, a, "should", d, f.clauses) && s.ParsedList?
    ensures m == ParseSection(lib, fields, l, a, "must_not", d, s.clauses) && m.ParsedList?
    ensures ParseBool(lib, fields, l, a, d, c) == Parsed(Bool(f.nodes, s.nodes, m.nodes), m.clauses)
    ensures |f.nodes| + |s.nodes| + |m.nodes| > 0
  {
    f := ParseSection(lib, fields, l, a, "filter", d, c);
    s := ParseSection(lib, fields, l, a, "should", d, f.clauses);
    m := ParseSection(lib, fields, l, a, "must_not", d, s.clauses);
  }

  lemma SameSections(lib: Library, n: Node, m: Node)
    requires n.Bool? && m.Bool? && CanonicalNodes(lib, n.filter) == CanonicalNodes(lib, m.filter)
    requires CanonicalNodes(lib, n.should) == CanonicalNodes(lib, m.should)
    requires CanonicalNodes(lib, n.mustNot) == CanonicalNodes(lib, m.mustNot)
    ensures CanonicalNode(lib, n) == CanonicalNode(lib, m)
  {
    var fs, ss, ms := CanonicalNodes(lib, n.filter), CanonicalNodes(lib, n.should), CanonicalNodes(lib, n.mustNot);
    CanonicalBool(lib, n, fs, ss, ms);
    CanonicalBool(lib, m, fs, ss, ms);
  }

  lemma {:induction false} SectionForgotten(lib: Library, fields: Fields, a: Json, l1: Limits, d1: nat, c1: nat,
                                            b: Json, l2: Limits, d2: nat, c2: nat, key: string)
    requires Injective(lib.encode) && ReorderedBool(a, b) && key in {"filter", "should", "must_not"}
    requires ParseSection(lib, fields, l1, a, key, d1, c1).ParsedList?
             && ParseSection(lib, fields, l2, b, key, d2, c2).ParsedList?
    ensures CanonicalNodes(lib, ParseSection(lib, fields, l1, a, key, d1, c1).nodes)
         == CanonicalNodes(lib, ParseSection(lib, fields, l2, b, key, d2, c2).nodes)
    decreases a, 1
  {
    if key in a.members {
      var xs, ys := a.members[key].items, b.members[key].items;
      var ns := ParseSection(lib, fields, l1, a, key, d1, c1).nodes;
      var ms := ParseSection(lib, fields, l2, b, key, d2, c2).nodes;
      assert ReorderedList(a.members[key], b.members[key]);
      ListYields(lib, fields, l1, xs, d1 + 1, c1);
      ListYields(lib, fields, l2, ys, d2 + 1, c2);
      ItemsForgotten(lib, fields, xs, ns, ys, ms);
      SortForgets(lib.encode, Each(lib, ns), Each(lib, ms));
    }
  }

  lemma {:induction false} ItemsForgotten(lib: Library, fields: Fields, xs: seq<Json>, ns: seq<Node>, ys: seq<Json>,
                                          ms: seq<Node>)
    requires Injective(lib.encode) && ReorderedItems(xs, ys) && AllYield(lib, fields, xs, ns)
             && AllYield(lib, fields, ys, ms)
    ensures multiset(Each(lib, ns)) == multiset(Each(lib, ms))
    decreases xs, 0
  {
    if xs != [] {
      var k :| 0 <= k < |ys| && Reordered(xs[0], ys[k]) && ReorderedItems(xs[1..], Without(ys, k));
      OrderForgotten(lib, fields, xs[0], ns[0], ys[k], ms[k]);
      YieldWithout(lib, fields, xs, ns, 0);
      YieldWithout(lib, fields, ys, ms, k);
      assert Without(xs, 0) == xs[1..] && Without(ns, 0) == ns[1..];
      ItemsForgotten(lib, fields, xs[1..], ns[1..], Without(ys, k), Without(ms, k));
      EachWithout(lib, ns, 0);
      EachWithout(lib, ms, k);
    }
  }

  lemma YieldWithout(lib: Library, fields: Fields, xs: seq<Json>, ns: seq<Node>, k: nat)
    requires AllYield(lib, fields, xs, ns) && k < |xs|
    ensures AllYield(lib, fields, Without(xs, k), Without(ns, k))
  {
    forall i | 0 <= i < |xs| - 1
      ensures Yields(lib, fields, Without(xs, k)[i], Without(ns, k)[i])
    {
      WithoutAt(xs, k, i);
      WithoutAt(ns, k, i);
    }
  }

  lemma EachWithout(lib: Library, ns: seq<Node>, k: nat)
    requires k < |ns|
    ensures multiset(Each(lib, ns)) == multiset{CanonicalNode(lib, ns[k])} + multiset(Each(lib, Without(ns, k)))
  {
    WithoutMultiset(Each(lib, ns), k);
    EachOfWithout(lib, ns, k);
  }

  lemma EachOfWithout(lib: Library, ns: seq<Node>, k: nat)
    requires k < |ns|
    ensures Each(lib, Without(ns, k)) == Without(Each(lib, ns), k)
  {
    forall i: nat | i < |ns| - 1 ensures Each(lib, Without(ns, k))[i] == Without(Each(lib, ns), k)[i] {
      WithoutAt(ns, k, i);
      WithoutAt(Each(lib, ns), k, i);
    }
  }

  // ----- a reordering of an accepted query is accepted

  lemma {:induction false} SizeAllSplits(a: seq<Node>, b: seq<Node>)
    ensures SizeAll(a + b) == SizeAll(a) + SizeAll(b) && HeightAll(a + b) == Max(HeightAll(a), HeightAll(b))
    decreases |b|
  {
    if b == [] {
      assert a + b == a;
    } else {
      var front, last := b[..|b| - 1], b[|b| - 1];
      SizeAllSplits(a, front);
      assert (a + b)[..|a + b| - 1] == a + front && (a + b)[|a + b| - 1] == last;
    }
  }

  lemma SizeAllOfOne(n: Node)
    ensures SizeAll([n]) == Size(n) && HeightAll([n]) == Height(n)
  {
    assert [n][..0] == [];
  }

  /** Where a node stands in a list does not matter to the limits. */
  lemma SizeAllInserts(a: seq<Node>, n: Node, b: seq<Node>)
    ensures SizeAll(a + [n] + b) == Size(n) + SizeAll(a + b)
    ensures HeightAll(a + [n] + b) == Max(Height(n), HeightAll(a + b))
  {
    SizeAllSplits(a + [n], b);
    SizeAllSplits(a, [n]);
    SizeAllSplits(a, b);
    SizeAllOfOne(n);
  }

  predicate SameMeasure(ns: seq<Node>, ms: seq<Node>) {
    |ns| == |ms| && SizeAll(ns) == SizeAll(ms) && HeightAll(ns) == HeightAll(ms)
  }

  lemma InsertMeasures(ns: seq<Node>, k: nat, m: Node, rest: seq<Node>)
    requires ns != [] && k <= |rest| && SameMeasure(ns[1..], rest)
    requires Size(m) == Size(ns[0]) && Height(m) == Height(ns[0])
    ensures SameMeasure(ns, rest[..k] + [m] + rest[k..])
  {
    SizeAllInserts(rest[..k], m, rest[k..]);
    assert rest[..k] + rest[k..] == rest;
    SizeAllSplits([ns[0]], ns[1..]);
    SizeAllOfOne(ns[0]);
    assert [ns[0]] + ns[1..] == ns;
  }

  lemma {:induction false} TypedIfEach(lib: Library, kind: Kind, raw: seq<Json>)
    ensures TypedScalars(lib, kind, raw).Ok? <==> forall x <- raw :: TypedScalar(lib, kind, x).Ok?
  {
    if raw != [] {
      TypedIfEach(lib, kind, raw[1..]);
      assert raw == [raw[0]] + raw[1..];
    }
  }

  lemma TypedReordered(lib: Library, kind: Kind, xs: seq<Json>, ys: seq<Json>)
    requires multiset(xs) == multiset(ys) && TypedScalars(lib, kind, xs).Ok?
    ensures TypedScalars(lib, kind, ys).Ok? && |xs| == |ys|
  {
    assert |xs| == |multiset(xs)| == |multiset(ys)| == |ys|;
    TypedIfEach(lib, kind, xs);
    TypedIfEach(lib, kind, ys);
    forall y | y in ys ensures TypedScalar(lib, kind, y).Ok? {
      assert y in multiset(ys);
      assert y in xs;
    }
  }

  lemma TermsStillParse(lib: Library, fields: Fields, a: Json, b: Json)
    requires Injective(lib.encode) && ReorderedTerms(a, b) && ParseTerm(lib, fields, a, true).Ok?
    ensures ParseTerm(lib, fields, b, true) == ParseTerm(lib, fields, a, true)
  {
    var name := OnlyKey(a.members);
    if a != b {
      assert a.members.Keys == b.members.Keys == {name};
      OnlyKeyIs(b.members, name);
      var kind, xs, ys := fields[name].kind, a.members[name].items, b.members[name].items;
      TypedReordered(lib, kind, xs, ys);
      TypedMultiset(lib, kind, xs, ys);
      ScalarKeyInjective(lib);
      SortForgets(ScalarKey(lib), TypedScalars(lib, kind, xs).value, TypedScalars(lib, kind, ys).value);
    }
  }

  ghost predicate ParsesTo(lib: Library, fields: Fields, l: Limits, items: seq<Json>, d: nat, c: nat, ns: seq<Node>,
                           c2: nat) {
    var r := ParseNodes(lib, fields, l, items, d, c);
    r.ParsedList? && r.clauses == c2 && |items| == |ns| && forall i :: 0 <= i < |ns| ==> r.nodes[i] == ns[i]
  }

  lemma NodesStep(lib: Library, fields: Fields, l: Limits, items: seq<Json>, d: nat, c: nat, ns: seq<Node>, c2: nat,
                  c3: nat)
    requires 0 < |items| == |ns|
    requires ParsesTo(lib, fields, l, items[..|items| - 1], d, c, ns[..|ns| - 1], c2)
    requires ParseNode(lib, fields, l, items[|items| - 1], d, c2) == Parsed(ns[|ns| - 1], c3)
    ensures ParsesTo(lib, fields, l, items, d, c, ns, c3)
  {
    var front := ParseNodes(lib, fields, l, items[..|items| - 1], d, c);
    var last := ParseNode(lib, fields, l, items[|items| - 1], d, c2);
    assert ParseNodes(lib, fields, l, items, d, c) == ParsedList(front.nodes + [last.node], last.clauses);
    forall i | 0 <= i < |ns| - 1 ensures front.nodes[i] == ns[i] {
      assert ns[..|ns| - 1][i] == ns[i];
    }
  }

  lemma YieldFront(lib: Library, fields: Fields, items: seq<Json>, ns: seq<Node>)
    requires |items| > 0 && AllYield(lib, fields, items, ns)
    ensures AllYield(lib, fields, items[..|items| - 1], ns[..|items| - 1])
    ensures Yields(lib, fields, items[|items| - 1], ns[|items| - 1])
  {
  }

  lemma {:induction false} ItemsParseEach(lib: Library, fields: Fields, items: seq<Json>, ns: seq<Node>,
                                          l: Limits, d: nat, c: nat)
    requires AllYield(lib, fields, items, ns) && d > 0 && AllFit(l, d, c, ns)
    ensures ParsesTo(lib, fields, l, items, d, c, ns, c + SizeAll(ns))
    decreases |items|
  {
    if |items| > 0 {
      var k := |items| - 1;
      var c2 := c + SizeAll(ns[..k]);
      YieldFront(lib, fields, items, ns);
      ItemsParseEach(lib, fields, items[..k], ns[..k], l, d, c);
      YieldParses(lib, fields, items[k], ns[k], l, d, c2);
      NodesStep(lib, fields, l, items, d, c, ns, c2, c + SizeAll(ns));
    }
  }

  /** Items that parse one by one parse together wherever they fit. */
  lemma ItemsParse(lib: Library, fields: Fields, items: seq<Json>, ns: seq<Node>, l: Limits, d: nat, c: nat)
    requires AllYield(lib, fields, items, ns) && d > 0 && AllFit(l, d, c, ns)
    ensures ParseNodes(lib, fields, l, items, d, c) == ParsedList(ns, c + SizeAll(ns))
  {
    ItemsParseEach(lib, fields, items, ns, l, d, c);
  }

  /** A query that parses somewhere parses wherever its tree fits. */
  lemma YieldParses(lib: Library, fields: Fields, j: Json, n: Node, l: Limits, d: nat, c: nat)
    requires Yields(lib, fields, j, n) && QueryDslLimits.Fits(l, d, c, n)
    ensures ParseNode(lib, fields, l, j, d, c) == Parsed(n, c + Size(n))
  {
    var l1: Limits, d1: nat, c1: nat :| YieldsAt(lib, fields, j, n, l1, d1, c1);
    LimitsAreExact(lib, fields, j, n, l1, d1, c1, l, d, c);
  }

  /** A reordered query parses, to a tree of the same size and height. */
  lemma {:induction false} ReorderedYields(lib: Library, fields: Fields, a: Json, n: Node, b: Json) returns (m: Node)
    requires Injective(lib.encode) && Reordered(a, b) && Yields(lib, fields, a, n)
    ensures Yields(lib, fields, b, m) && Size(m) == Size(n) && Height(m) == Height(n)
    decreases a, 2
  {
    var l: Limits, d: nat, c: nat :| YieldsAt(lib, fields, a, n, l, d, c);
    SingleKey(a.members);
    assert |b.members| == 1 by { assert |b.members.Keys| == |a.members.Keys|; }
    if "bool" in a.members {
      m := ReorderedBoolYields(lib, fields, a.members["bool"], n, l, d, c + 1, b.members["bool"]);
      assert ParseNode(lib, fields, Limits(Height(m), Size(m)), b, 1, 0)
          == ParseBool(lib, fields, Limits(Height(m), Size(m)), b.members["bool"], 1, 1);
      assert YieldsAt(lib, fields, b, m, Limits(Height(m), Size(m)), 1, 0);
    } else if "terms" in a.members {
      TermsStillParse(lib, fields, a.members["terms"], b.members["terms"]);
      m := n;
      assert YieldsAt(lib, fields, b, m, l, d, c);
    } else {
      m := n;
    }
  }

  lemma {:induction false} ReorderedBoolYields(lib: Library, fields: Fields, a: Json, n: Node, l: Limits, d: nat,
                                               c: nat, b: Json)
    returns (m: Node)
    requires Injective(lib.encode) && ReorderedBool(a, b)
    requires var p := ParseBool(lib, fields, l, a, d, c); p.Parsed? && p.node == n
    ensures Size(m) == Size(n) && Height(m) == Height(n)
    ensures ParseBool(lib, fields, Limits(Height(m), Size(m)), b, 1, 1) == Parsed(m, Size(m))
    decreases a, 2
  {
    var f := ParseSection(lib, fields, l, a, "filter", d, c);
    var s := ParseSection(lib, fields, l, a, "should", d, f.clauses);
    var fs := ReorderedSection(lib, fields, a, l, d, c, b, "filter");
    var ss := ReorderedSection(lib, fields, a, l, d, f.clauses, b, "should");
    var ms := ReorderedSection(lib, fields, a, l, d, s.clauses, b, "must_not");
    m := Bool(fs, ss, ms);
    BoolReads(lib, fields, b, fs, ss, ms);
  }

  /** The nodes of a section of `b`, where they are given. */
  ghost predicate SectionYields(lib: Library, fields: Fields, b: Json, key: string, ms: seq<Node>)
    requires b.Object?
  {
    if key !in b.members then ms == []
    else
      && b.members[key].Array? && 0 < |b.members[key].items| <= MAXIMUM_CLAUSES
      && AllYield(lib, fields, b.members[key].items, ms)
  }

  lemma {:induction false} ReorderedSection(lib: Library, fields: Fields, a: Json, l: Limits, d: nat, c: nat, b: Json,
                                            key: string)
    returns (ms: seq<Node>)
    requires Injective(lib.encode) && ReorderedBool(a, b) && key in {"filter", "should", "must_not"}
    requires ParseSection(lib, fields, l, a, key, d, c).ParsedList?
    ensures SameMeasure(ParseSection(lib, fields, l, a, key, d, c).nodes, ms) && SectionYields(lib, fields, b, key, ms)
    decreases a, 1
  {
    ms := [];
    if key in a.members {
      assert ReorderedList(a.members[key], b.members[key]);
      var xs, ys := a.members[key].items, b.members[key].items;
      var ns := ParseSection(lib, fields, l, a, key, d, c).nodes;
      ListYields(lib, fields, l, xs, d + 1, c);
      ms := ReorderedItemsYield(lib, fields, xs, ns, ys);
    }
  }

  lemma {:induction false} ReorderedItemsYield(lib: Library, fields: Fields, xs: seq<Json>, ns: seq<Node>,
                                               ys: seq<Json>)
    returns (ms: seq<Node>)
    requires Injective(lib.encode) && ReorderedItems(xs, ys) && AllYield(lib, fields, xs, ns)
    ensures AllYield(lib, fields, ys, ms) && SameMeasure(ns, ms)
    decreases xs, 0
  {
    if xs == [] {
      ms := [];
    } else {
      var k :| 0 <= k < |ys| && Reordered(xs[0], ys[k]) && ReorderedItems(xs[1..], Without(ys, k));
      assert Yields(lib, fields, xs[0], ns[0]);
      var m := ReorderedYields(lib, fields, xs[0], ns[0], ys[k]);
      YieldWithout(lib, fields, xs, ns, 0);
      WithoutFirst(xs);
      WithoutFirst(ns);
      var rest := ReorderedItemsYield(lib, fields, xs[1..], ns[1..], Without(ys, k));
      ms := rest[..k] + [m] + rest[k..];
      InsertYields(lib, fields, ys, k, m, rest);
      InsertMeasures(ns, k, m, rest);
    }
  }

  lemma InsertYields(lib: Library, fields: Fields, ys: seq<Json>, k: nat, m: Node, rest: seq<Node>)
    requires k < |ys| && Yields(lib, fields, ys[k], m) && AllYield(lib, fields, Without(ys, k), rest)
    ensures AllYield(lib, fields, ys, rest[..k] + [m] + rest[k..])
  {
    var ms := rest[..k] + [m] + rest[k..];
    forall i: nat | i < |ys| ensures Yields(lib, fields, ys[i], ms[i]) {
      InsertAt(rest, k, m, i);
      if i != k {
        WithoutAt(ys, k, if i < k then i else i - 1);
      }
    }
  }

  lemma InsertAt<T>(rest: seq<T>, k: nat, m: T, i: nat)
    requires k <= |rest| && i <= |rest|
    ensures (rest[..k] + [m] + rest[k..])[i] == if i < k then rest[i] else if i == k then m else rest[i - 1]
  {
  }

  /** A section parses wherever its nodes fit. */
  lemma SectionReads(lib: Library, fields: Fields, b: Json, key: string, ms: seq<Node>, l: Limits, d: nat, c: nat)
    requires b.Object? && SectionYields(lib, fields, b, key, ms) && AllFit(l, d + 1, c, ms)
    ensures ParseSection(lib, fields, l, b, key, d, c) == ParsedList(ms, c + SizeAll(ms))
  {
    if key in b.members {
      ItemsParse(lib, fields, b.members[key].items, ms, l, d + 1, c);
    }
  }

  lemma BoolFrom(lib: Library, fields: Fields, l: Limits, b: Json, c1: nat, c2: nat, c3: nat)
    requires BoolShape(b)
    requires "should" in b.members ==> NumberEquals(b.members, "minimum_should_match", 1)
    requires "should" !in b.members ==> "minimum_should_match" !in b.members
    requires var f := ParseSection(lib, fields, l, b, "filter", 1, c1);
             var s := ParseSection(lib, fields, l, b, "should", 1, c2);
             var m := ParseSection(lib, fields, l, b, "must_not", 1, c3);
             && f.ParsedList? && f.clauses == c2 && s.ParsedList? && s.clauses == c3 && m.ParsedList?
             && |f.nodes| + |s.nodes| + |m.nodes| > 0
    ensures var f := ParseSection(lib, fields, l, b, "filter", 1, c1);
            var s := ParseSection(lib, fields, l, b, "should", 1, c2);
            var m := ParseSection(lib, fields, l, b, "must_not", 1, c3);
            ParseBool(lib, fields, l, b, 1, c1) == Parsed(Bool(f.nodes, s.nodes, m.nodes), m.clauses)
  {
  }

  lemma BoolReads(lib: Library, fields: Fields, b: Json, fs: seq<Node>, ss: seq<Node>, ms: seq<Node>)
    requires BoolShape(b) && |fs| + |ss| + |ms| > 0
    requires "should" in b.members ==> NumberEquals(b.members, "minimum_should_match", 1)
    requires "should" !in b.members ==> "minimum_should_match" !in b.members
    requires SectionYields(lib, fields, b, "filter", fs) && SectionYields(lib, fields, b, "should", ss)
    requires SectionYields(lib, fields, b, "must_not", ms)
    ensures var m := Bool(fs, ss, ms);
            ParseBool(lib, fields, Limits(Height(m), Size(m)), b, 1, 1) == Parsed(m, Size(m))
  {
    var l := Limits(Height(Bool(fs, ss, ms)), Size(Bool(fs, ss, ms)));
    var c2 := 1 + SizeAll(fs);
    var c3 := c2 + SizeAll(ss);
    SectionsHaveRoom(fs, ss, ms);
    SectionRead(lib, fields, b, "filter", fs, l, 1);
    SectionRead(lib, fields, b, "should", ss, l, c2);
    SectionRead(lib, fields, b, "must_not", ms, l, c3);
    BoolFrom(lib, fields, l, b, 1, c2, c3);
  }

  lemma SectionsHaveRoom(fs: seq<Node>, ss: seq<Node>, ms: seq<Node>)
    ensures var n := Bool(fs, ss, ms);
            && HeightAll(fs) < Height(n) && HeightAll(ss) < Height(n) && HeightAll(ms) < Height(n)
            && Size(n) == 1 + SizeAll(fs) + SizeAll(ss) + SizeAll(ms)
  {
  }

  lemma SectionRead(lib: Library, fields: Fields, b: Json, key: string, ms: seq<Node>, l: Limits, c: nat)
    requires b.Object? && SectionYields(lib, fields, b, key, ms) && HeightAll(ms) < l.depth
    requires c + SizeAll(ms) <= l.clauses
    ensures var r := ParseSection(lib, fields, l, b, key, 1, c);
            r.ParsedList? && r.nodes == ms && r.clauses == c + SizeAll(ms)
  {
    SectionReads(lib, fields, b, key, ms, l, 1, c);
  }

  /** Reordering keeps acceptance, from any depth and count and under any limits, and the canonical form. */
  lemma ReorderingIsAccepted(lib: Library, fields: Fields, l: Limits, d: nat, c: nat, a: Json, b: Json)
    requires Injective(lib.encode) && Reordered(a, b) && ParseNode(lib, fields, l, a, d, c).Parsed?
    ensures var p, q := ParseNode(lib, fields, l, a, d, c), ParseNode(lib, fields, l, b, d, c);
            q.Parsed? && q.clauses == p.clauses && CanonicalNode(lib, q.node) == CanonicalNode(lib, p.node)
  {
    var n := ParseNode(lib, fields, l, a, d, c).node;
    assert YieldsAt(lib, fields, a, n, l, d, c);
    var m := ReorderedYields(lib, fields, a, n, b);
    LimitsAreExact(lib, fields, a, n, l, d, c, l, d, c);
    YieldParses(lib, fields, b, m, l, d, c);
    OrderForgotten(lib, fields, a, n, b, m);
  }
}
