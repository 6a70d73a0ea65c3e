/**
  The grammar of WHERE expressions, and the parser as a reader of it: AND binds tighter than OR,
  both associate to the left, and NOT and parentheses bind tightest.
 */
module EsqlGrammar {
  import opened EsqlSyntax
  import opened EsqlParser
  import opened Wrappers

  /** Sentences, with the tokens they are written in. */
  datatype Operand =
    | Compare(name: Token, op: Token, literal: Token, value: Value)
    | Not(word: Token, child: Operand)
    | Group(inner: Ors)

  datatype Ands = FirstOperand(operand: Operand) | AndThen(front: Ands, word: Token, operand: Operand)

  datatype Ors = FirstAnds(ands: Ands) | OrElse(front: Ors, word: Token, ands: Ands)

  // ----- how a sentence is written

  function OperandText(o: Operand): (ts: seq<Token>)
    ensures ts != []
  {
    match o
    case Compare(name, op, literal, _) => [name, op, literal]
    case Not(word, child) => [word] + OperandText(child)
    case Group(inner) => [LeftParen] + OrsText(inner) + [RightParen]
  }

  function AndsText(a: Ands): (ts: seq<Token>)
    ensures ts != []
  {
    match a
    case FirstOperand(o) => OperandText(o)
    case AndThen(front, word, o) => AndsText(front) + [word] + OperandText(o)
  }

  function OrsText(o: Ors): (ts: seq<Token>)
    ensures ts != []
  {
    match o
    case FirstAnds(a) => AndsText(a)
    case OrElse(front, word, a) => OrsText(front) + [word] + AndsText(a)
  }

  // ----- which sentences there are

  /** The name of a field that may be filtered by, spelled as the table spells it. */
  predicate Usable(fields: Fields, name: string) {
    var key := Lower(name);
    key in fields && fields[key].name == name && fields[key].filterable
  }

  /** What a token denotes as a literal of a type. */
  predicate Denotes(kind: Kind, t: Token, v: Value) {
    match kind
    case IntegerKind => t.Integer? && v == IntegerValue(t.integer)
    case BooleanKind =>
      t.Word? && v.BooleanValue? && Lower(t.text) == (if v.flag then "true" else "false")
    case _ => t.Text? && v == TextValue(t.value)
  }

  lemma LiteralExactly(kind: Kind, t: Token, v: Value)
    ensures Literal(kind, t) == Some(v) <==> Denotes(kind, t, v)
  {
    KeywordsDiffer();
  }

  /** A keyword in upper-case letters is matched whatever the case of each letter. */
  lemma {:induction false} KeywordsInAnyCase(text: string, keyword: string)
    requires forall c <- keyword :: 'A' <= c <= 'Z'
    ensures Lower(text) == Lower(keyword) <==>
            && |text| == |keyword|
            && forall i | 0 <= i < |text| :: text[i] == keyword[i] || text[i] as int == keyword[i] as int + 32
  {
    if text != "" && keyword != "" {
      assert keyword[0] in keyword && forall c <- keyword[1..] :: c in keyword;
      KeywordsInAnyCase(text[1..], keyword[1..]);
      assert text == [text[0]] + text[1..] && keyword == [keyword[0]] + keyword[1..];
      assert Lower(text) == [LowerChar(text[0])] + Lower(text[1..]);
      assert Lower(keyword) == [LowerChar(keyword[0])] + Lower(keyword[1..]);
      assert Lower(text)[1..] == Lower(text[1..]) && Lower(keyword)[1..] == Lower(keyword[1..]);
      assert Lower(text)[0] == LowerChar(text[0]) && Lower(keyword)[0] == LowerChar(keyword[0]);
    }
  }

  predicate LegalOperand(fields: Fields, o: Operand) {
    match o
    case Compare(name, op, literal, value) =>
      && name.Word? && !IsWord(name, "NOT") && Usable(fields, name.text) && op.Operator?
      && Denotes(fields[Lower(name.text)].kind, literal, value)
    case Not(word, child) => IsWord(word, "NOT") && LegalOperand(fields, child)
    case Group(inner) => LegalOrs(fields, inner)
  }

  predicate LegalAnds(fields: Fields, a: Ands) {
    match a
    case FirstOperand(o) => LegalOperand(fields, o)
    case AndThen(front, word, o) => LegalAnds(fields, front) && IsWord(word, "AND") && LegalOperand(fields, o)
  }

  predicate LegalOrs(fields: Fields, o: Ors) {
    match o
    case FirstAnds(a) => LegalAnds(fields, a)
    case OrElse(front, word, a) => LegalOrs(fields, front) && IsWord(word, "OR") && LegalAnds(fields, a)
  }

  // ----- what a sentence means, and how deep it nests

  function OperandTree(fields: Fields, o: Operand): Expr
    requires LegalOperand(fields, o)
  {
    match o
    case Compare(name, op, _, value) => Comparison(name.text, op.op, value)
    case Not(_, child) => Negation(OperandTree(fields, child))
    case Group(inner) => OrsTree(fields, inner)
  }

  function AndsTree(fields: Fields, a: Ands): Expr
    requires LegalAnds(fields, a)
  {
    match a
    case FirstOperand(o) => OperandTree(fields, o)
    case AndThen(front, _, o) => Logical(And, AndsTree(fields, front), OperandTree(fields, o))
  }

  function OrsTree(fields: Fields, o: Ors): Expr
    requires LegalOrs(fields, o)
  {
    match o
    case FirstAnds(a) => AndsTree(fields, a)
    case OrElse(front, _, a) => Logical(Or, OrsTree(fields, front), AndsTree(fields, a))
  }

  function Max(a: nat, b: nat): nat {
    if a >= b then a else b
  }

  function OperandDepth(o: Operand): nat {
    match o
    case Compare(_, _, _, _) => 0
    case Not(_, child) => 1 + OperandDepth(child)
    case Group(inner) => 1 + OrsDepth(inner)
  }

  function AndsDepth(a: Ands): nat {
    match a
    case FirstOperand(o) => OperandDepth(o)
    case AndThen(front, _, o) => Max(AndsDepth(front), OperandDepth(o))
  }

  function OrsDepth(o: Ors): nat {
    match o
    case FirstAnds(a) => AndsDepth(a)
    case OrElse(front, _, a) => Max(OrsDepth(front), AndsDepth(a))
  }

  // ----- a sentence in a token list

  predicate WrittenAt(ts: seq<Token>, pos: nat, text: seq<Token>) {
    pos + |text| <= |ts| && forall k | 0 <= k < |text| :: ts[pos + k] == text[k]
  }

  lemma WrittenParts(ts: seq<Token>, pos: nat, a: seq<Token>, b: seq<Token>, mid: nat)
    requires WrittenAt(ts, pos, a + b) && mid == pos + |a|
    ensures WrittenAt(ts, pos, a) && WrittenAt(ts, mid, b)
  {
    forall k | 0 <= k < |a| ensures ts[pos + k] == a[k] {
      assert (a + b)[k] == a[k];
    }
    forall k | 0 <= k < |b| ensures ts[mid + k] == b[k] {
      assert (a + b)[|a| + k] == b[k];
    }
  }

  /** `front`, one word, and `back`, one after another. */
  lemma WrittenChain(ts: seq<Token>, pos: nat, front: seq<Token>, word: Token, back: seq<Token>, mid: nat)
    requires WrittenAt(ts, pos, front + [word] + back) && mid == pos + |front|
    ensures WrittenAt(ts, pos, front) && mid < |ts| && ts[mid] == word && WrittenAt(ts, mid + 1, back)
  {
    WrittenParts(ts, pos, front + [word], back, mid + 1);
    WrittenParts(ts, pos, front, [word], mid);
    assert ts[mid + 0] == [word][0];
  }

  // ----- the parser reads sentences

  lemma WordsDiffer(t: Token)
    ensures !(IsWord(t, "AND") && IsWord(t, "OR")) && !(IsWord(t, "AND") && IsWord(t, "NOT"))
  {
    KeywordsDiffer();
  }

  /** An operand is read to its end and its tree, or refused for its depth. */
  lemma {:induction false} OperandReads(fields: Fields, limit: nat, ts: seq<Token>, pos: nat, end: nat, depth: nat,
                                        o: Operand)
    requires EndsInput(ts) && depth <= limit && LegalOperand(fields, o) && WrittenAt(ts, pos, OperandText(o))
    requires end == pos + |OperandText(o)| < |ts|
    ensures if depth + OperandDepth(o) <= limit
            then ParseNot(fields, limit, ts, pos, depth) == Parsed(OperandTree(fields, o), end)
            else ParseNot(fields, limit, ts, pos, depth).Denied?
    decreases o, 0
  {
    match o
    case Compare(_, _, _, _) => CompareReads(fields, limit, ts, pos, depth, o);
    case Not(word, child) => NotReads(fields, limit, ts, pos, end, depth, word, child);
    case Group(inner) => GroupReads(fields, limit, ts, pos, end, depth, inner);
  }

  lemma CompareReads(fields: Fields, limit: nat, ts: seq<Token>, pos: nat, depth: nat, o: Operand)
    requires EndsInput(ts) && o.Compare? && LegalOperand(fields, o) && WrittenAt(ts, pos, OperandText(o))
    requires pos + 3 < |ts|
    ensures ParseNot(fields, limit, ts, pos, depth) == Parsed(OperandTree(fields, o), pos + 3)
  {
    var text := OperandText(o);
    assert ts[pos + 0] == text[0] && ts[pos + 1] == text[1] && ts[pos + 2] == text[2];
    LiteralExactly(fields[Lower(o.name.text)].kind, o.literal, o.value);
  }

  lemma {:induction false} NotReads(fields: Fields, limit: nat, ts: seq<Token>, pos: nat, end: nat, depth: nat,
                                    word: Token, child: Operand)
    requires EndsInput(ts) && depth <= limit && LegalOperand(fields, Not(word, child))
    requires WrittenAt(ts, pos, OperandText(Not(word, child)))
    requires end == pos + 1 + |OperandText(child)| < |ts|
    ensures if depth + 1 + OperandDepth(child) <= limit
            then ParseNot(fields, limit, ts, pos, depth) == Parsed(Negation(OperandTree(fields, child)), end)
            else ParseNot(fields, limit, ts, pos, depth).Denied?
    decreases child, 1
  {
    WrittenParts(ts, pos, [word], OperandText(child), pos + 1);
    assert ts[pos + 0] == [word][0];
    if depth < limit {
      OperandReads(fields, limit, ts, pos + 1, end, depth + 1, child);
    }
  }

  lemma {:induction false} GroupReads(fields: Fields, limit: nat, ts: seq<Token>, pos: nat, end: nat, depth: nat,
                                      inner: Ors)
    requires EndsInput(ts) && depth <= limit && LegalOrs(fields, inner) && WrittenAt(ts, pos, OperandText(Group(inner)))
    requires end == pos + 2 + |OrsText(inner)| < |ts|
    ensures if depth + 1 + OrsDepth(inner) <= limit
            then ParseNot(fields, limit, ts, pos, depth) == Parsed(OrsTree(fields, inner), end)
            else ParseNot(fields, limit, ts, pos, depth).Denied?
    decreases inner, 2
  {
    var close := end - 1;
    assert [LeftParen] + OrsText(inner) + [RightParen] == [] + [LeftParen] + (OrsText(inner) + [RightParen]);
    WrittenChain(ts, pos, [], LeftParen, OrsText(inner) + [RightParen], pos);
    WrittenParts(ts, pos + 1, OrsText(inner), [RightParen], close);
    assert ts[close + 0] == [RightParen][0];
    if depth < limit {
      OrsRead(fields, limit, ts, pos + 1, close, depth + 1, inner);
    }
  }

  /** A chain of ANDs is read as far as it is written, and the loop goes on from there. */
  lemma {:induction false} AndsRead(fields: Fields, limit: nat, ts: seq<Token>, pos: nat, end: nat, depth: nat, a: Ands)
    requires EndsInput(ts) && depth <= limit && LegalAnds(fields, a) && WrittenAt(ts, pos, AndsText(a))
    requires end == pos + |AndsText(a)| < |ts|
    ensures if depth + AndsDepth(a) <= limit
            then ParseAnd(fields, limit, ts, pos, depth) == AndTail(fields, limit, ts, AndsTree(fields, a), end, depth)
            else ParseAnd(fields, limit, ts, pos, depth).Denied?
    decreases a, 1
  {
    match a
    case FirstOperand(o) => OperandReads(fields, limit, ts, pos, end, depth, o);
    case AndThen(front, word, o) => AndThenReads(fields, limit, ts, pos, end, depth, front, word, o);
  }

  lemma {:induction false} AndThenReads(fields: Fields, limit: nat, ts: seq<Token>, pos: nat, end: nat, depth: nat,
                                        front: Ands, word: Token, o: Operand)
    requires EndsInput(ts) && depth <= limit && LegalAnds(fields, AndThen(front, word, o))
    requires WrittenAt(ts, pos, AndsText(AndThen(front, word, o)))
    requires end == pos + |AndsText(AndThen(front, word, o))| < |ts|
    ensures if depth + Max(AndsDepth(front), OperandDepth(o)) <= limit
            then ParseAnd(fields, limit, ts, pos, depth)
                 == AndTail(fields, limit, ts, AndsTree(fields, AndThen(front, word, o)), end, depth)
            else ParseAnd(fields, limit, ts, pos, depth).Denied?
    decreases AndThen(front, word, o), 0
  {
    var mid := pos + |AndsText(front)|;
    WrittenChain(ts, pos, AndsText(front), word, OperandText(o), mid);
    AndsRead(fields, limit, ts, pos, mid, depth, front);
    OperandReads(fields, limit, ts, mid + 1, end, depth, o);
  }

  /** A chain of ORs is read as far as it is written, where no AND follows. */
  lemma {:induction false} OrsRead(fields: Fields, limit: nat, ts: seq<Token>, pos: nat, end: nat, depth: nat, o: Ors)
    requires EndsInput(ts) && depth <= limit && LegalOrs(fields, o) && WrittenAt(ts, pos, OrsText(o))
    requires end == pos + |OrsText(o)| < |ts| && !IsWord(ts[end], "AND")
    ensures if depth + OrsDepth(o) <= limit
            then ParseOr(fields, limit, ts, pos, depth) == OrTail(fields, limit, ts, OrsTree(fields, o), end, depth)
            else ParseOr(fields, limit, ts, pos, depth).Denied?
    decreases o, 1
  {
    match o
    case FirstAnds(a) => AndsRead(fields, limit, ts, pos, end, depth, a);
    case OrElse(front, word, a) => OrElseReads(fields, limit, ts, pos, end, depth, front, word, a);
  }

  lemma {:induction false} OrElseReads(fields: Fields, limit: nat, ts: seq<Token>, pos: nat, end: nat, depth: nat,
                                       front: Ors, word: Token, a: Ands)
    requires EndsInput(ts) && depth <= limit && LegalOrs(fields, OrElse(front, word, a))
    requires WrittenAt(ts, pos, OrsText(OrElse(front, word, a)))
    requires end == pos + |OrsText(OrElse(front, word, a))| < |ts| && !IsWord(ts[end], "AND")
    ensures if depth + Max(OrsDepth(front), AndsDepth(a)) <= limit
            then ParseOr(fields, limit, ts, pos, depth)
                 == OrTail(fields, limit, ts, OrsTree(fields, OrElse(front, word, a)), end, depth)
            else ParseOr(fields, limit, ts, pos, depth).Denied?
    decreases OrElse(front, word, a), 0
  {
    var mid := pos + |OrsText(front)|;
    WrittenChain(ts, pos, OrsText(front), word, AndsText(a), mid);
    WordsDiffer(word);
    OrsRead(fields, limit, ts, pos, mid, depth, front);
    AndsRead(fields, limit, ts, mid + 1, end, depth, a);
  }

  /** Every sentence, written before the end of the input, is parsed to its own tree exactly when its nesting fits. */
  lemma SentenceIsRead(fields: Fields, limit: nat, ts: seq<Token>, o: Ors)
    requires EndsInput(ts) && LegalOrs(fields, o) && ts == OrsText(o) + [Eof]
    ensures if OrsDepth(o) <= limit then ParseWhere(fields, limit, ts) == Ok(OrsTree(fields, o))
            else ParseWhere(fields, limit, ts).Err?
  {
    var end := |OrsText(o)|;
    assert ts[end] == Eof;
    OrsRead(fields, limit, ts, 0, end, 0, o);
  }

  // ----- and nothing else

  /** The tokens from `pos` to `end` are this text. */
  predicate Spans(ts: seq<Token>, pos: nat, end: nat, text: seq<Token>) {
    pos <= end <= |ts| && text == ts[pos..end]
  }

  lemma SpansChain(ts: seq<Token>, pos: nat, mid: nat, end: nat, front: seq<Token>, back: seq<Token>)
    requires Spans(ts, pos, mid, front) && mid < |ts| && Spans(ts, mid + 1, end, back)
    ensures Spans(ts, pos, end, front + [ts[mid]] + back)
  {
  }

  lemma SpansGroup(ts: seq<Token>, pos: nat, close: nat, text: seq<Token>)
    requires pos < close < |ts| && Spans(ts, pos + 1, close, text)
    ensures Spans(ts, pos, close + 1, [ts[pos]] + text + [ts[close]])
  {
  }

  lemma SpansAfter(ts: seq<Token>, pos: nat, end: nat, text: seq<Token>)
    requires pos < |ts| && Spans(ts, pos + 1, end, text)
    ensures Spans(ts, pos, end, [ts[pos]] + text)
  {
  }

  ghost predicate ReadOperand(fields: Fields, room: int, ts: seq<Token>, pos: nat, end: nat, e: Expr, o: Operand) {
    && LegalOperand(fields, o) && Spans(ts, pos, end, OperandText(o))
    && OperandTree(fields, o) == e && OperandDepth(o) <= room
  }

  ghost predicate ReadAnds(fields: Fields, room: int, ts: seq<Token>, pos: nat, end: nat, e: Expr, a: Ands) {
    LegalAnds(fields, a) && Spans(ts, pos, end, AndsText(a)) && AndsTree(fields, a) == e && AndsDepth(a) <= room
  }

  ghost predicate ReadOrs(fields: Fields, room: int, ts: seq<Token>, pos: nat, end: nat, e: Expr, o: Ors) {
    LegalOrs(fields, o) && Spans(ts, pos, end, OrsText(o)) && OrsTree(fields, o) == e && OrsDepth(o) <= room
  }

  /** Whatever is accepted as an operand is one, of that tree. */
  lemma {:induction false} OperandFound(fields: Fields, limit: nat, ts: seq<Token>, pos: nat, depth: nat)
    returns (o: Operand)
    requires EndsInput(ts) && pos < |ts| && depth <= limit && ParseNot(fields, limit, ts, pos, depth).Parsed?
    ensures var r := ParseNot(fields, limit, ts, pos, depth);
            ReadOperand(fields, limit - depth, ts, pos, r.next, r.expr, o)
    decreases |ts| - pos, 0
  {
    if IsWord(ts[pos], "NOT") {
      var child := OperandFound(fields, limit, ts, pos + 1, depth + 1);
      o := Not(ts[pos], child);
      SpansAfter(ts, pos, ParseNot(fields, limit, ts, pos, depth).next, OperandText(child));
    } else if ts[pos].LeftParen? {
      var inner := OrsFound(fields, limit, ts, pos + 1, depth + 1);
      o := Group(inner);
      SpansGroup(ts, pos, ParseOr(fields, limit, ts, pos + 1, depth + 1).next, OrsText(inner));
    } else {
      var value := Literal(fields[Lower(ts[pos].text)].kind, ts[pos + 2]).value;
      LiteralExactly(fields[Lower(ts[pos].text)].kind, ts[pos + 2], value);
      o := Compare(ts[pos], ts[pos + 1], ts[pos + 2], value);
    }
  }

  lemma {:induction false} AndsFound(fields: Fields, limit: nat, ts: seq<Token>, pos: nat, depth: nat) returns (a: Ands)
    requires EndsInput(ts) && pos < |ts| && depth <= limit && ParseAnd(fields, limit, ts, pos, depth).Parsed?
    ensures var r := ParseAnd(fields, limit, ts, pos, depth);
            ReadAnds(fields, limit - depth, ts, pos, r.next, r.expr, a)
    decreases |ts| - pos, 2
  {
    var first := ParseNot(fields, limit, ts, pos, depth);
    var o := OperandFound(fields, limit, ts, pos, depth);
    a := AndTailFound(fields, limit, ts, pos, first.next, depth, FirstOperand(o), first.expr);
  }

  lemma {:induction false} AndTailFound(fields: Fields, limit: nat, ts: seq<Token>, start: nat, pos: nat, depth: nat,
                                        front: Ands, left: Expr)
    returns (a: Ands)
    requires EndsInput(ts) && start < pos < |ts| && depth <= limit
    requires ReadAnds(fields, limit - depth, ts, start, pos, left, front)
    requires AndTail(fields, limit, ts, left, pos, depth).Parsed?
    ensures var r := AndTail(fields, limit, ts, left, pos, depth);
            ReadAnds(fields, limit - depth, ts, start, r.next, r.expr, a)
    decreases |ts| - pos, 1
  {
    if IsWord(ts[pos], "AND") {
      var right := ParseNot(fields, limit, ts, pos + 1, depth);
      var o := OperandFound(fields, limit, ts, pos + 1, depth);
      SpansChain(ts, start, pos, right.next, AndsText(front), OperandText(o));
      a := AndTailFound(fields, limit, ts, start, right.next, depth, AndThen(front, ts[pos], o),
                        Logical(And, left, right.expr));
    } else {
      a := front;
    }
  }

  lemma {:induction false} OrsFound(fields: Fields, limit: nat, ts: seq<Token>, pos: nat, depth: nat) returns (o: Ors)
    requires EndsInput(ts) && pos < |ts| && depth <= limit && ParseOr(fields, limit, ts, pos, depth).Parsed?
    ensures var r := ParseOr(fields, limit, ts, pos, depth);
            ReadOrs(fields, limit - depth, ts, pos, r.next, r.expr, o)
    decreases |ts| - pos, 4
  {
    var first := ParseAnd(fields, limit, ts, pos, depth);
    var a := AndsFound(fields, limit, ts, pos, depth);
    o := OrTailFound(fields, limit, ts, pos, first.next, depth, FirstAnds(a), first.expr);
  }

  lemma {:induction false} OrTailFound(fields: Fields, limit: nat, ts: seq<Token>, start: nat, pos: nat, depth: nat,
                                       front: Ors, left: Expr)
    returns (o: Ors)
    requires EndsInput(ts) && start < pos < |ts| && depth <= limit
    requires ReadOrs(fields, limit - depth, ts, start, pos, left, front)
    requires OrTail(fields, limit, ts, left, pos, depth).Parsed?
    ensures var r := OrTail(fields, limit, ts, left, pos, depth);
            ReadOrs(fields, limit - depth, ts, start, r.next, r.expr, o)
    decreases |ts| - pos, 3
  {
    if IsWord(ts[pos], "OR") {
      var right := ParseAnd(fields, limit, ts, pos + 1, depth);
      var a := AndsFound(fields, limit, ts, pos + 1, depth);
      SpansChain(ts, start, pos, right.next, OrsText(front), AndsText(a));
      o := OrTailFound(fields, limit, ts, start, right.next, depth, OrElse(front, ts[pos], a),
                       Logical(Or, left, right.expr));
    } else {
      o := front;
    }
  }

  /** `o` is a sentence that fits the limit, means `e`, and is all of the input before its end marker. */
  ghost predicate IsSentence(fields: Fields, limit: nat, ts: seq<Token>, e: Expr, o: Ors) {
    LegalOrs(fields, o) && OrsDepth(o) <= limit && ts == OrsText(o) + [Eof] && OrsTree(fields, o) == e
  }

  /** What the tokenizer returns: one end marker, at the end. */
  predicate OneEnd(ts: seq<Token>) {
    EndsInput(ts) && forall k | 0 <= k < |ts| - 1 :: !ts[k].Eof?
  }

  /** The parser accepts exactly the sentences that fit, and gives each its own tree. */
  lemma ParsesExactly(fields: Fields, limit: nat, ts: seq<Token>, e: Expr)
    requires OneEnd(ts)
    ensures ParseWhere(fields, limit, ts) == Ok(e) <==> exists o: Ors :: IsSentence(fields, limit, ts, e, o)
  {
    if ParseWhere(fields, limit, ts) == Ok(e) {
      var o := OrsFound(fields, limit, ts, 0, 0);
      var end := ParseOr(fields, limit, ts, 0, 0).next;
      assert end == |ts| - 1 && ts == ts[0..end] + [ts[end]];
      assert IsSentence(fields, limit, ts, e, o);
    }
    if o: Ors :| IsSentence(fields, limit, ts, e, o) {
      SentenceIsRead(fields, limit, ts, o);
    }
  }

  // ----- lists of operands

  /** The operands of a list, joined by AND. */
  function Anded(os: seq<Operand>): Ands
    requires os != []
  {
    var last := |os| - 1;
    if last == 0 then FirstOperand(os[0]) else AndThen(Anded(os[..last]), Word("AND"), os[last])
  }

  /** The lists of a list, joined by OR. */
  function Ored(lists: seq<seq<Operand>>): Ors
    requires lists != [] && forall k | 0 <= k < |lists| :: lists[k] != []
  {
    var last := |lists| - 1;
    if last == 0 then FirstAnds(Anded(lists[0])) else OrElse(Ored(lists[..last]), Word("OR"), Anded(lists[last]))
  }

  /** The left fold of a connective over trees. */
  function Folded(c: Connective, es: seq<Expr>): Expr
    requires es != []
  {
    var last := |es| - 1;
    if last == 0 then es[0] else Logical(c, Folded(c, es[..last]), es[last])
  }

  predicate AllLegal(fields: Fields, os: seq<Operand>) {
    forall k | 0 <= k < |os| :: LegalOperand(fields, os[k])
  }

  predicate ListsLegal(fields: Fields, lists: seq<seq<Operand>>) {
    lists != [] && forall k | 0 <= k < |lists| :: lists[k] != [] && AllLegal(fields, lists[k])
  }

  function Trees(fields: Fields, os: seq<Operand>): (es: seq<Expr>)
    requires AllLegal(fields, os)
    ensures |es| == |os| && forall k | 0 <= k < |os| :: es[k] == OperandTree(fields, os[k])
  {
    if os == [] then [] else Trees(fields, os[..|os| - 1]) + [OperandTree(fields, os[|os| - 1])]
  }

  lemma {:induction false} AndedFolds(fields: Fields, os: seq<Operand>)
    requires os != [] && AllLegal(fields, os)
    ensures LegalAnds(fields, Anded(os)) && AndsTree(fields, Anded(os)) == Folded(And, Trees(fields, os))
    decreases |os|
  {
    var last := |os| - 1;
    if last > 0 {
      AndedFolds(fields, os[..last]);
      KeywordsDiffer();
      assert Trees(fields, os)[..last] == Trees(fields, os[..last]);
    }
  }

  /** The folds of the lists. */
  function Folds(fields: Fields, lists: seq<seq<Operand>>): (es: seq<Expr>)
    requires forall k | 0 <= k < |lists| :: lists[k] != [] && AllLegal(fields, lists[k])
    ensures |es| == |lists| && forall k | 0 <= k < |lists| :: es[k] == Folded(And, Trees(fields, lists[k]))
  {
    if lists == [] then []
    else Folds(fields, lists[..|lists| - 1]) + [Folded(And, Trees(fields, lists[|lists| - 1]))]
  }

  lemma {:induction false} OredFolds(fields: Fields, lists: seq<seq<Operand>>)
    requires ListsLegal(fields, lists)
    ensures LegalOrs(fields, Ored(lists)) && OrsTree(fields, Ored(lists)) == Folded(Or, Folds(fields, lists))
    decreases |lists|
  {
    var last := |lists| - 1;
    AndedFolds(fields, lists[last]);
    if last > 0 {
      OredFolds(fields, lists[..last]);
      KeywordsDiffer();
      assert Folds(fields, lists)[..last] == Folds(fields, lists[..last]);
    }
  }

  /**
    Operands joined by AND within lists and by OR between them, with no parentheses around, parse to
    the left fold of OR over the left folds of AND.
   */
  lemma ListsParseToFolds(fields: Fields, limit: nat, lists: seq<seq<Operand>>)
    requires ListsLegal(fields, lists)
    ensures var ts := OrsText(Ored(lists)) + [Eof];
            && EndsInput(ts)
            && if OrsDepth(Ored(lists)) <= limit
               then ParseWhere(fields, limit, ts) == Ok(Folded(Or, Folds(fields, lists)))
               else ParseWhere(fields, limit, ts).Err?
  {
    OredFolds(fields, lists);
    SentenceIsRead(fields, limit, OrsText(Ored(lists)) + [Eof], Ored(lists));
  }
}
