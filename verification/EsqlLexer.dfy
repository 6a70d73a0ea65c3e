/**
 * The ES|QL tokenizer. Characters stand for the bytes of the input. String unquoting is a
 * parameter, because it belongs to the language's library.
 */
module EsqlLexer {
  import opened EsqlSyntax
  import opened Decimal
  import opened Concatenation
  import opened Wrappers

  const MAXIMUM_TOKENS := 4096
  const MAXIMUM_INPUT_BYTES := 65536
  const MAXIMUM_STRING_BYTES := 4096

  /** `marks` is false for a caller's query; printed text also holds `?`. */
  datatype Mode = Mode(marks: bool, unquote: string -> Option<string>)

  datatype Scan = Scanned(token: Token, length: nat) | Refused(reason: string)

  predicate IsSpace(c: char) { c == ' ' || c == '\n' || c == '\r' || c == '\t' }

  predicate IsWordStart(c: char) { 'a' <= c <= 'z' || 'A' <= c <= 'Z' || c == '@' || c == '_' }

  predicate IsWordContinue(c: char) { IsWordStart(c) || IsDigit(c) || c == '.' || c == '-' }

  /** How many leading characters satisfy `p`. */
  function Run(p: char -> bool, s: string): (n: nat)
    ensures n <= |s|
    ensures forall i | 0 <= i < n :: p(s[i])
    ensures n < |s| ==> !p(s[n])
  {
    if s == "" || !p(s[0]) then 0 else 1 + Run(p, s[1..])
  }

  /** The length of a string body up to and including its closing quote. */
  function StringEnd(s: string): (n: Option<nat>)
    ensures n.Some? ==> 1 <= n.value <= |s| && s[n.value - 1] == '"'
  {
    if s == "" then None
    else if s[0] == '"' then Some(1)
    else if s[0] == '\\' then
      if |s| < 2 then None else
        var rest := StringEnd(s[2..]);
        if rest.None? then None else Some(rest.value + 2)
    else if s[0] < ' ' then None
    else
      var rest := StringEnd(s[1..]);
      if rest.None? then None else Some(rest.value + 1)
  }

  function ScanInteger(s: string): (r: Scan)
    requires s != "" && (s[0] == '-' || IsDigit(s[0]))
    ensures r.Scanned? ==> 1 <= r.length <= |s| && r.token.Integer?
  {
    var sign := if s[0] == '-' then 1 else 0;
    var n := sign + Run(IsDigit, s[sign..]);
    var value := ParseInt(s[..n]);
    if value.None? then Refused("esql_integer_invalid") else Scanned(Integer(value.value), n)
  }

  predicate AllowedString(s: string) {
    0 < |s| <= MAXIMUM_STRING_BYTES && forall c <- s :: c != '\0' && c != '\r' && c != '\n' && c != '\t'
  }

  function ScanString(mode: Mode, s: string): (r: Scan)
    requires s != "" && s[0] == '"'
    ensures r.Scanned? ==> 1 <= r.length <= |s| && r.token.Text?
  {
    var end := StringEnd(s[1..]);
    if end.None? then Refused("esql_string_invalid")
    else
      var decoded := mode.unquote(s[..end.value + 1]);
      if decoded.Some? && AllowedString(decoded.value) then Scanned(Text(decoded.value), end.value + 1)
      else Refused("esql_string_invalid")
  }

  function ScanOperator(s: string): (r: Scan)
    requires s != "" && s[0] in "=!<>"
    ensures r.Scanned? ==> 1 <= r.length <= |s| && r.token.Operator?
  {
    var second := |s| > 1 && s[1] == '=';
    match s[0]
    case '=' => if second then Scanned(Operator(Equal), 2) else Refused("esql_operator_unsupported")
    case '!' => if second then Scanned(Operator(NotEqual), 2) else Refused("esql_operator_unsupported")
    case '<' => if second then Scanned(Operator(LessEqual), 2) else Scanned(Operator(Less), 1)
    case _ => if second then Scanned(Operator(GreaterEqual), 2) else Scanned(Operator(Greater), 1)
  }

  function ScanToken(mode: Mode, s: string): (r: Scan)
    requires s != "" && !IsSpace(s[0])
    ensures r.Scanned? ==> 1 <= r.length <= |s| && !r.token.Eof? && (r.token.Mark? ==> mode.marks)
  {
    match s[0]
    case '|' => Scanned(Pipe, 1)
    case ',' => Scanned(Comma, 1)
    case '(' => Scanned(LeftParen, 1)
    case ')' => Scanned(RightParen, 1)
    case '"' => ScanString(mode, s)
    case _ =>
      if s[0] in "=!<>" then ScanOperator(s)
      else if s[0] == '-' || IsDigit(s[0]) then ScanInteger(s)
      else if s[0] == '?' && mode.marks then Scanned(Mark, 1)
      else if !IsWordStart(s[0]) then Refused("esql_character_unsupported")
      else var n := 1 + Run(IsWordContinue, s[1..]); Scanned(Word(s[..n]), n)
  }

  /** The tokens of `s`, when at most `budget` of them may be produced before its end. */
  function Lex(mode: Mode, s: string, budget: nat): (r: Result<seq<Token>>)
    ensures r.Ok? ==> |r.value| <= budget
    ensures r.Ok? ==> forall t <- r.value :: !t.Eof? && (t.Mark? ==> mode.marks)
    decreases |s|
  {
    if s == "" then Ok([])
    else if budget == 0 then Err("esql_token_limit")
    else if IsSpace(s[0]) then Lex(mode, s[1..], budget)
    else
      var scan := ScanToken(mode, s);
      if scan.Refused? then Err(scan.reason)
      else Prepend([scan.token], Lex(mode, s[scan.length..], budget - 1))
  }

  function Prepend(ts: seq<Token>, r: Result<seq<Token>>): Result<seq<Token>> {
    if r.Ok? then Ok(ts + r.value) else r
  }

  /** What the tokenizer returns: the tokens of the whole input and the end marker. */
  function Tokens(mode: Mode, input: string, validUtf8: bool): Result<seq<Token>> {
    if input == "" || |input| > MAXIMUM_INPUT_BYTES || !validUtf8 then Err("esql_input_invalid")
    else
      var r := Lex(mode, input, MAXIMUM_TOKENS);
      if r.Ok? then Ok(r.value + [Eof]) else r
  }

  /** The scanning loop behind words and digit runs. */
  method SkipWhile(p: char -> bool, input: string, start: nat) returns (next: nat)
    requires start <= |input|
    ensures next == start + Run(p, input[start..])
  {
    next := start;
    while next < |input| && p(input[next])
      invariant start <= next <= |input|
      invariant next + Run(p, input[next..]) == start + Run(p, input[start..])
    {
      assert input[next..][1..] == input[next + 1..];
      next := next + 1;
    }
  }

  /** The same end, found from a position of the whole input and counted from its start. */
  function EndFrom(input: string, offset: nat): Option<nat>
    requires offset <= |input|
    decreases |input| - offset
  {
    if offset == |input| then None
    else if input[offset] == '"' then Some(offset + 1)
    else if input[offset] == '\\' then (if offset + 2 > |input| then None else EndFrom(input, offset + 2))
    else if input[offset] < ' ' then None
    else EndFrom(input, offset + 1)
  }

  lemma {:induction false} EndFromIsStringEnd(input: string, offset: nat)
    requires offset <= |input|
    ensures var end := StringEnd(input[offset..]);
            EndFrom(input, offset) == if end.None? then None else Some(offset + end.value)
    decreases |input| - offset, 0
  {
    if offset < |input| {
      if input[offset] == '\\' {
        if offset + 2 <= |input| {
          EndFromRest(input, offset, 2);
        }
      } else if input[offset] != '"' && input[offset] >= ' ' {
        EndFromRest(input, offset, 1);
      }
    }
  }

  lemma {:induction false} EndFromRest(input: string, offset: nat, n: nat)
    requires offset + n <= |input|
    ensures var end := StringEnd(input[offset..][n..]);
            EndFrom(input, offset + n) == if end.None? then None else Some(offset + n + end.value)
    decreases |input| - offset - n, 1
  {
    DropDrop(input, offset, n);
    EndFromIsStringEnd(input, offset + n);
  }

  /** The escape-skipping loop that finds the closing quote. */
  method CloseString(input: string, start: nat) returns (end: Option<nat>)
    requires start < |input| && input[start] == '"'
    ensures end == EndFrom(input, start + 1)
  {
    var offset := start + 1;
    while offset < |input|
      invariant start + 1 <= offset <= |input| && EndFrom(input, offset) == EndFrom(input, start + 1)
    {
      if input[offset] == '"' {
        return Some(offset + 1);
      } else if input[offset] == '\\' {
        if offset + 2 > |input| {
          return None;
        }
        offset := offset + 2;
      } else if input[offset] < ' ' {
        return None;
      } else {
        offset := offset + 1;
      }
    }
    return None;
  }

  method NextString(mode: Mode, input: string, offset: nat) returns (r: Scan)
    requires offset < |input| && input[offset] == '"'
    ensures r == ScanString(mode, input[offset..])
  {
    ghost var s := input[offset..];
    var end := CloseString(input, offset);
    EndFromIsStringEnd(input, offset + 1);
    assert s[1..] == input[offset + 1..];
    if end.None? {
      return Refused("esql_string_invalid");
    }
    assert input[offset..end.value] == s[..end.value - offset];
    var decoded := mode.unquote(input[offset..end.value]);
    if decoded.Some? && AllowedString(decoded.value) {
      return Scanned(Text(decoded.value), end.value - offset);
    }
    return Refused("esql_string_invalid");
  }

  method NextInteger(input: string, offset: nat) returns (r: Scan)
    requires offset < |input| && (input[offset] == '-' || IsDigit(input[offset]))
    ensures r == ScanInteger(input[offset..])
  {
    var first := if input[offset] == '-' then offset + 1 else offset;
    var next := SkipWhile(IsDigit, input, first);
    var text := input[offset..next];
    DropDrop(input, offset, first - offset);
    DropTake(input, offset, next);
    IntegerIs(input[offset..], next - offset, text);
    var value := ParseInt(text);
    if value.None? {
      return Refused("esql_integer_invalid");
    }
    r := Scanned(Integer(value.value), next - offset);
  }

  lemma IntegerIs(s: string, n: nat, text: string)
    requires s != "" && (s[0] == '-' || IsDigit(s[0]))
    requires var sign := if s[0] == '-' then 1 else 0; n == sign + Run(IsDigit, s[sign..])
    requires n <= |s| && text == s[..n]
    ensures ScanInteger(s) == if ParseInt(text).None? then Refused("esql_integer_invalid")
                              else Scanned(Integer(ParseInt(text).value), n)
  {
  }

  /** One token at `offset`, found with the loops above. */
  method NextToken(mode: Mode, input: string, offset: nat) returns (r: Scan)
    requires offset < |input| && !IsSpace(input[offset])
    ensures r == ScanToken(mode, input[offset..])
  {
    var c := input[offset];
    if c == '"' {
      r := NextString(mode, input, offset);
    } else if c == '-' || IsDigit(c) {
      r := NextInteger(input, offset);
    } else if IsWordStart(c) {
      var next := SkipWhile(IsWordContinue, input, offset + 1);
      DropDrop(input, offset, 1);
      DropTake(input, offset, next);
      r := Scanned(Word(input[offset..next]), next - offset);
    } else {
      r := ScanToken(mode, input[offset..]);
    }
  }

  /** Lexing on from a position of the whole input, with the tokens found before it. */
  function LexOn(mode: Mode, input: string, offset: nat, tokens: seq<Token>): Result<seq<Token>>
    requires offset <= |input|
    decreases |input| - offset, 1
  {
    if offset == |input| then Ok(tokens)
    else if |tokens| >= MAXIMUM_TOKENS then Err("esql_token_limit")
    else if IsSpace(input[offset]) then LexOn(mode, input, offset + 1, tokens)
    else LexAfter(mode, input, offset, tokens, ScanToken(mode, input[offset..]))
  }

  function LexAfter(mode: Mode, input: string, offset: nat, tokens: seq<Token>, scan: Scan): Result<seq<Token>>
    requires scan.Scanned? ==> 0 < scan.length <= |input| - offset
    decreases |input| - offset, 0
  {
    if scan.Refused? then Err(scan.reason) else LexOn(mode, input, offset + scan.length, tokens + [scan.token])
  }

  method Tokenize(mode: Mode, input: string, validUtf8: bool) returns (r: Result<seq<Token>>)
    ensures r == Tokens(mode, input, validUtf8)
  {
    if input == "" || |input| > MAXIMUM_INPUT_BYTES || !validUtf8 {
      return Err("esql_input_invalid");
    }
    r := TokenLoop(mode, input);
    LexOnIsLex(mode, input, 0, []);
    PrependNothing(Lex(mode, input, MAXIMUM_TOKENS));
    assert input[0..] == input;
    if r.Ok? {
      r := Ok(r.value + [Eof]);
    }
  }

  /** The loop over the input. */
  method TokenLoop(mode: Mode, input: string) returns (r: Result<seq<Token>>)
    ensures r == LexOn(mode, input, 0, [])
  {
    var tokens: seq<Token> := [];
    var offset := 0;
    ghost var goal := LexOn(mode, input, 0, []);
    while offset < |input|
      invariant offset <= |input| && Reaches(mode, input, offset, tokens, goal)
    {
      if |tokens| >= MAXIMUM_TOKENS {
        return Err("esql_token_limit");
      }
      if IsSpace(input[offset]) {
        LexOnSpace(mode, input, offset, tokens, goal);
        offset := offset + 1;
        continue;
      }
      var scan := NextToken(mode, input, offset);
      LexOnScan(mode, input, offset, tokens, scan, goal);
      if scan.Refused? {
        return Err(scan.reason);
      }
      tokens := tokens + [scan.token];
      offset := offset + scan.length;
    }
    r := Ok(tokens);
  }

  /** Lexing on from here gives the result the loop is after. */
  ghost predicate Reaches(mode: Mode, input: string, offset: nat, tokens: seq<Token>, goal: Result<seq<Token>>)
    requires offset <= |input|
  {
    LexOn(mode, input, offset, tokens) == goal
  }

  lemma LexOnSpace(mode: Mode, input: string, offset: nat, tokens: seq<Token>, goal: Result<seq<Token>>)
    requires offset < |input| && |tokens| < MAXIMUM_TOKENS && IsSpace(input[offset])
    requires Reaches(mode, input, offset, tokens, goal)
    ensures Reaches(mode, input, offset + 1, tokens, goal)
  {
  }

  lemma LexOnNext(mode: Mode, input: string, offset: nat, tokens: seq<Token>, scan: Scan)
    requires offset < |input| && |tokens| < MAXIMUM_TOKENS && !IsSpace(input[offset])
    requires scan == ScanToken(mode, input[offset..])
    ensures scan.Scanned? ==> 0 < scan.length <= |input| - offset
    ensures LexOn(mode, input, offset, tokens) == LexAfter(mode, input, offset, tokens, scan)
  {
  }

  lemma LexAfterScan(mode: Mode, input: string, offset: nat, tokens: seq<Token>, scan: Scan)
    requires scan.Scanned? ==> 0 < scan.length <= |input| - offset
    ensures scan.Refused? ==> LexAfter(mode, input, offset, tokens, scan) == Err(scan.reason)
    ensures scan.Scanned? ==>
              LexAfter(mode, input, offset, tokens, scan)
              == LexOn(mode, input, offset + scan.length, tokens + [scan.token])
  {
  }

  lemma LexOnScan(mode: Mode, input: string, offset: nat, tokens: seq<Token>, scan: Scan, goal: Result<seq<Token>>)
    requires offset < |input| && |tokens| < MAXIMUM_TOKENS && !IsSpace(input[offset])
    requires scan == ScanToken(mode, input[offset..]) && Reaches(mode, input, offset, tokens, goal)
    ensures scan.Refused? ==> goal == Err(scan.reason)
    ensures scan.Scanned? ==>
              && offset + scan.length <= |input|
              && Reaches(mode, input, offset + scan.length, tokens + [scan.token], goal)
  {
    LexOnNext(mode, input, offset, tokens, scan);
    LexAfterScan(mode, input, offset, tokens, scan);
  }

  // ----- the loop finds the tokens of the text

  /** What the loop adds to the tokens it holds are the tokens of the rest. */
  lemma {:induction false} LexOnIsLex(mode: Mode, input: string, offset: nat, tokens: seq<Token>)
    requires offset <= |input| && |tokens| <= MAXIMUM_TOKENS
    ensures LexOn(mode, input, offset, tokens)
         == Prepend(tokens, Lex(mode, input[offset..], MAXIMUM_TOKENS - |tokens|))
    decreases |input| - offset, 1
  {
    if offset == |input| {
      assert tokens + [] == tokens;
    } else if |tokens| < MAXIMUM_TOKENS {
      if IsSpace(input[offset]) {
        LexOnRest(mode, input, offset, 1, tokens);
      } else if ScanToken(mode, input[offset..]).Scanned? {
        LexOnToken(mode, input, offset, tokens);
      }
    }
  }

  lemma {:induction false} LexOnToken(mode: Mode, input: string, offset: nat, tokens: seq<Token>)
    requires offset < |input| && |tokens| < MAXIMUM_TOKENS && !IsSpace(input[offset])
    requires ScanToken(mode, input[offset..]).Scanned?
    ensures LexOn(mode, input, offset, tokens)
         == Prepend(tokens, Lex(mode, input[offset..], MAXIMUM_TOKENS - |tokens|))
    decreases |input| - offset, 0
  {
    var rest, left := input[offset..], MAXIMUM_TOKENS - |tokens|;
    var scan := ScanToken(mode, rest);
    LexOnRest(mode, input, offset, scan.length, tokens + [scan.token]);
    FirstToken(mode, rest, left);
    PrependTwice(tokens, [scan.token], Lex(mode, rest[scan.length..], left - 1));
  }

  lemma {:induction false} LexOnRest(mode: Mode, input: string, offset: nat, n: nat, tokens: seq<Token>)
    requires offset + n <= |input| && |tokens| <= MAXIMUM_TOKENS
    ensures LexOn(mode, input, offset + n, tokens)
         == Prepend(tokens, Lex(mode, input[offset..][n..], MAXIMUM_TOKENS - |tokens|))
    decreases |input| - offset - n, 3
  {
    DropDrop(input, offset, n);
    LexOnAt(mode, input, offset + n, tokens, input[offset..][n..]);
  }

  lemma {:induction false} LexOnAt(mode: Mode, input: string, offset: nat, tokens: seq<Token>, rest: string)
    requires offset <= |input| && |tokens| <= MAXIMUM_TOKENS && rest == input[offset..]
    ensures LexOn(mode, input, offset, tokens) == Prepend(tokens, Lex(mode, rest, MAXIMUM_TOKENS - |tokens|))
    decreases |input| - offset, 2
  {
    LexOnIsLex(mode, input, offset, tokens);
  }

  lemma FirstToken(mode: Mode, s: string, budget: nat)
    requires s != "" && !IsSpace(s[0]) && budget > 0 && ScanToken(mode, s).Scanned?
    ensures var scan := ScanToken(mode, s);
            Lex(mode, s, budget) == Prepend([scan.token], Lex(mode, s[scan.length..], budget - 1))
  {
  }

  lemma PrependNothing(r: Result<seq<Token>>)
    ensures Prepend([], r) == r
  {
    if r.Ok? {
      assert [] + r.value == r.value;
    }
  }

  lemma PrependTwice(a: seq<Token>, b: seq<Token>, r: Result<seq<Token>>)
    ensures Prepend(a, Prepend(b, r)) == Prepend(a + b, r)
  {
    if r.Ok? {
      assert a + (b + r.value) == a + b + r.value;
    }
  }
}
