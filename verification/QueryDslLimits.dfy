/** What the clause counter and the depth limit deny: exactly the queries that are too big or too deep. */
module QueryDslLimits {
  import opened QueryDslSyntax
  import opened QueryDslParser

  /** The number of clauses of a tree, and how deep they nest. */
  function Size(n: Node): nat {
    1 + if n.Bool? then SizeAll(n.filter) + SizeAll(n.should) + SizeAll(n.mustNot) else 0
  }

  function SizeAll(ns: seq<Node>): nat {
    if ns == [] then 0 else SizeAll(ns[..|ns| - 1]) + Size(ns[|ns| - 1])
  }

  function Max(a: nat, b: nat): nat {
    if a >= b then a else b
  }

  function Height(n: Node): nat {
    1 + if n.Bool? then Max(HeightAll(n.filter), Max(HeightAll(n.should), HeightAll(n.mustNot))) else 0
  }

  function HeightAll(ns: seq<Node>): nat {
    if ns == [] then 0 else Max(HeightAll(ns[..|ns| - 1]), Height(ns[|ns| - 1]))
  }

  const LIMIT := "querydsl_complexity_limit"

  predicate Fits(limits: Limits, depth: nat, clauses: nat, n: Node) {
    depth + Height(n) <= limits.depth + 1 && clauses + Size(n) <= limits.clauses
  }

  predicate AllFit(limits: Limits, depth: nat, clauses: nat, ns: seq<Node>) {
    depth + HeightAll(ns) <= limits.depth + 1 && clauses + SizeAll(ns) <= limits.clauses
  }

  predicate NodeResult(limits: Limits, depth: nat, clauses: nat, n: Node, r: Parsed) {
    if Fits(limits, depth, clauses, n) then r == Parsed(n, clauses + Size(n)) else r == Denied(LIMIT)
  }

  predicate ListResult(limits: Limits, depth: nat, clauses: nat, ns: seq<Node>, r: ParsedList) {
    if AllFit(limits, depth, clauses, ns) then r == ParsedList(ns, clauses + SizeAll(ns)) else r == ListDenied(LIMIT)
  }

  /**
   * A query that parses to a tree under some limits does so from any other depth, count and limits,
   * exactly when the tree's clauses and depth fit them; otherwise it is denied as too complex.
   */
  lemma {:induction false} LimitsAreExact(lib: Library, fields: Fields, j: Json, n: Node, l1: Limits, d1: nat, c1: nat,
                                          l2: Limits, d2: nat, c2: nat)
    requires ParseNode(lib, fields, l1, j, d1, c1).Parsed? && ParseNode(lib, fields, l1, j, d1, c1).node == n
    ensures NodeResult(l1, d1, c1, n, ParseNode(lib, fields, l1, j, d1, c1))
    ensures NodeResult(l2, d2, c2, n, ParseNode(lib, fields, l2, j, d2, c2))
    decreases j, 2
  {
    if "bool" in j.members {
      BoolExact(lib, fields, j.members["bool"], n, l1, d1, c1 + 1, l1, d1, c1 + 1);
      if d2 <= l2.depth && c2 + 1 <= l2.clauses {
        BoolExact(lib, fields, j.members["bool"], n, l1, d1, c1 + 1, l2, d2, c2 + 1);
      }
    } else {
      LeafIsNoBool(lib, fields, j.members);
    }
  }

  lemma LeafIsNoBool(lib: Library, fields: Fields, m: map<string, Json>)
    ensures ParseLeaf(lib, fields, m).Ok? ==> !ParseLeaf(lib, fields, m).value.Bool?
  {
  }

  predicate Open(limits: Limits, depth: nat, clauses: nat) {
    depth <= limits.depth && clauses <= limits.clauses
  }

  lemma {:induction false} BoolExact(lib: Library, fields: Fields, body: Json, n: Node, l1: Limits, d1: nat, c1: nat,
                                     l2: Limits, d2: nat, c2: nat)
    requires Open(l1, d1, c1) && Open(l2, d2, c2) && c2 > 0
    requires ParseBool(lib, fields, l1, body, d1, c1).Parsed? && ParseBool(lib, fields, l1, body, d1, c1).node == n
    ensures n.Bool? && NodeResult(l2, d2, c2 - 1, n, ParseBool(lib, fields, l2, body, d2, c2))
    decreases body, 2
  {
    var f1 := ParseSection(lib, fields, l1, body, "filter", d1, c1);
    SectionExact(lib, fields, body, "filter", f1.nodes, l1, d1, c1, l2, d2, c2);
    var s1 := ParseSection(lib, fields, l1, body, "should", d1, f1.clauses);
    var f2 := ParseSection(lib, fields, l2, body, "filter", d2, c2);
    if f2.ParsedList? {
      SectionExact(lib, fields, body, "should", s1.nodes, l1, d1, f1.clauses, l2, d2, f2.clauses);
      var s2 := ParseSection(lib, fields, l2, body, "should", d2, f2.clauses);
      SectionExact(lib, fields, body, "should", s1.nodes, l1, d1, f1.clauses, l1, d1, f1.clauses);
      if s2.ParsedList? {
        var m1 := ParseSection(lib, fields, l1, body, "must_not", d1, s1.clauses);
        SectionExact(lib, fields, body, "must_not", m1.nodes, l1, d1, s1.clauses, l2, d2, s2.clauses);
      }
    }
  }

  lemma {:induction false} SectionExact(lib: Library, fields: Fields, body: Json, key: string, ns: seq<Node>,
                                        l1: Limits, d1: nat, c1: nat, l2: Limits, d2: nat, c2: nat)
    requires body.Object? && Open(l1, d1, c1) && Open(l2, d2, c2)
    requires var r := ParseSection(lib, fields, l1, body, key, d1, c1); r.ParsedList? && r.nodes == ns
    ensures ListResult(l1, d1 + 1, c1, ns, ParseSection(lib, fields, l1, body, key, d1, c1))
    ensures ListResult(l2, d2 + 1, c2, ns, ParseSection(lib, fields, l2, body, key, d2, c2))
    decreases body, 1
  {
    if key in body.members {
      ListExact(lib, fields, body.members[key].items, ns, l1, d1 + 1, c1, l2, d2 + 1, c2);
    }
  }

  lemma {:induction false} ListExact(lib: Library, fields: Fields, items: seq<Json>, ns: seq<Node>,
                                     l1: Limits, d1: nat, c1: nat, l2: Limits, d2: nat, c2: nat)
    requires d1 > 0 && d2 > 0 && Open(l1, d1 - 1, c1) && Open(l2, d2 - 1, c2)
    requires var r := ParseNodes(lib, fields, l1, items, d1, c1); r.ParsedList? && r.nodes == ns
    ensures ListResult(l1, d1, c1, ns, ParseNodes(lib, fields, l1, items, d1, c1))
    ensures ListResult(l2, d2, c2, ns, ParseNodes(lib, fields, l2, items, d2, c2))
    decreases items, 0
  {
    if items != [] {
      var front := items[..|items| - 1];
      var a1 := ParseNodes(lib, fields, l1, front, d1, c1);
      ListExact(lib, fields, front, a1.nodes, l1, d1, c1, l2, d2, c2);
      var a2 := ParseNodes(lib, fields, l2, front, d2, c2);
      var n := ParseNode(lib, fields, l1, items[|items| - 1], d1, a1.clauses).node;
      assert ns == a1.nodes + [n] && ns[..|ns| - 1] == a1.nodes;
      if a2.ParsedList? {
        LimitsAreExact(lib, fields, items[|items| - 1], n, l1, d1, a1.clauses, l2, d2, a2.clauses);
      } else {
        LimitsAreExact(lib, fields, items[|items| - 1], n, l1, d1, a1.clauses, l1, d1, a1.clauses);
      }
    }
  }
}
