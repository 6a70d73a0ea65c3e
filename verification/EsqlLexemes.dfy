/** What the tokenizer accepts: texts of lexemes and spaces, each lexeme as long as it can be. */
module EsqlLexemes {
  import opened Decimal
  import opened EsqlLexer
  import opened EsqlSyntax
  import opened Wrappers

  predicate IsDigits(x: string) {
    x != "" && forall c <- x :: '0' <= c <= '9'
  }

  /** The inside of a string: no control character, and a quote only behind a backslash. */
  predicate StringBody(x: string) {
    x == "" ||
    if x[0] == '\\' then |x| >= 2 && StringBody(x[2..]) else x[0] != '"' && x[0] >= ' ' && StringBody(x[1..])
  }

  predicate Quoted(x: string) {
    |x| >= 2 && x[0] == '"' && x[|x| - 1] == '"' && StringBody(x[1..|x| - 1])
  }

  function OperatorText(op: CompareOp): string {
    match op
    case Equal => "=="
    case NotEqual => "!="
    case Less => "<"
    case LessEqual => "<="
    case Greater => ">"
    case GreaterEqual => ">="
  }

  /** Letters, `@` and `_`; inside a word also digits, `.` and `-`. */
  predicate StartsWord(c: char) {
    'a' <= c <= 'z' || 'A' <= c <= 'Z' || c in "@_"
  }

  predicate InWord(c: char) {
    StartsWord(c) || '0' <= c <= '9' || c in ".-"
  }

  /** What a string may say: something, in at most 4096 bytes, without NUL and line or tab characters. */
  predicate Sayable(v: string) {
    0 < |v| <= 4096 && forall c <- v :: c !in "\0\r\n\t"
  }

  /** `x` spells the token. */
  predicate Spells(mode: Mode, x: string, t: Token) {
    match t
    case Word(w) => x == w && x != "" && StartsWord(x[0]) && forall c <- x :: InWord(c)
    case Integer(n) => (IsDigits(x) || (x != "" && x[0] == '-' && IsDigits(x[1..]))) && ParseInt(x) == Some(n)
    case Text(v) => Quoted(x) && mode.unquote(x) == Some(v) && Sayable(v)
    case Operator(op) => x == OperatorText(op)
    case Pipe => x == "|"
    case Comma => x == ","
    case LeftParen => x == "("
    case RightParen => x == ")"
    case Mark => x == "?" && mode.marks
    case Eof => false
  }

  /** The lexeme could not have been longer, given the character that follows it. */
  predicate EndsBefore(t: Token, next: char) {
    match t
    case Word(_) => !InWord(next)
    case Integer(_) => !('0' <= next <= '9')
    case Operator(op) => op == Less || op == Greater ==> next != '='
    case _ => true
  }

  predicate LexemeAt(mode: Mode, s: string, n: nat, t: Token) {
    0 < n <= |s| && Spells(mode, s[..n], t) && (n < |s| ==> EndsBefore(t, s[n]))
  }

  // ---------- One lexeme

  lemma {:induction false} BodyEnds(s: string, n: nat)
    requires n <= |s|
    ensures n > 0 && s[n - 1] == '"' && StringBody(s[..n - 1]) <==> StringEnd(s) == Some(n)
    decreases |s|
  {
    if s == "" || n == 0 {
    } else if s[0] == '"' {
      if n > 1 {
        assert s[..n - 1][0] == '"';
      } else {
        assert s[..0] == "";
      }
    } else if s[0] == '\\' {
      if n >= 3 {
        BodyEnds(s[2..], n - 2);
        assert s[..n - 1][2..] == s[2..][..n - 3];
      } else if n == 2 {
        assert |s[..1]| == 1 && s[..1][0] == '\\';
        if |s| >= 2 {
          BodyEnds(s[2..], 0);
        }
      } else if |s| >= 2 {
        BodyEnds(s[2..], 0);
      }
    } else if n >= 2 {
      BodyEnds(s[1..], n - 1);
      assert s[..n - 1][1..] == s[1..][..n - 2];
    }
  }

  lemma StringExactly(mode: Mode, s: string, t: Token, n: nat)
    requires s != "" && s[0] == '"'
    ensures ScanString(mode, s) == Scanned(t, n) <==> t.Text? && LexemeAt(mode, s, n, t)
  {
    if 2 <= n <= |s| {
      BodyEnds(s[1..], n - 1);
      assert s[..n][1..n - 1] == s[1..][..n - 2];
    }
  }

  /** The characters of a run, and the one that stops it. */
  lemma RunExactly(p: char -> bool, s: string, n: nat)
    requires n <= |s|
    ensures Run(p, s) == n <==> (forall i | 0 <= i < n :: p(s[i])) && (n < |s| ==> !p(s[n]))
  {
  }

  lemma IntegerExactly(s: string, t: Token, n: nat, mode: Mode)
    requires s != "" && (s[0] == '-' || IsDigit(s[0]))
    ensures ScanInteger(s) == Scanned(t, n) <==> t.Integer? && LexemeAt(mode, s, n, t)
  {
    var sign := if s[0] == '-' then 1 else 0;
    if sign <= n <= |s| {
      var x := s[..n];
      RunExactly(IsDigit, s[sign..], n - sign);
      DigitsFrom(s, sign, n);
    }
  }

  lemma DigitsFrom(s: string, sign: nat, n: nat)
    requires sign <= n <= |s|
    ensures (forall i | 0 <= i < n - sign :: IsDigit(s[sign..][i])) <==> (s[sign..n] == "" || IsDigits(s[sign..n]))
  {
    var x := s[sign..n];
    forall i | 0 <= i < n - sign ensures x[i] == s[sign..][i] && x[i] in x {
    }
    if forall i | 0 <= i < n - sign :: IsDigit(s[sign..][i]) {
      forall c <- x ensures '0' <= c <= '9' {
        var i :| 0 <= i < |x| && x[i] == c;
        assert IsDigit(s[sign..][i]);
      }
    }
  }

  lemma WordCharacters(c: char)
    ensures IsWordStart(c) <==> StartsWord(c)
    ensures IsWordContinue(c) <==> InWord(c)
  {
  }

  lemma WordExactly(s: string, t: Token, n: nat, mode: Mode)
    requires s != "" && IsWordStart(s[0])
    ensures (t == Word(s[..1 + Run(IsWordContinue, s[1..])]) && n == 1 + Run(IsWordContinue, s[1..]))
       <==> t.Word? && LexemeAt(mode, s, n, t)
  {
    forall c: char ensures IsWordStart(c) <==> StartsWord(c) ensures IsWordContinue(c) <==> InWord(c) {
      WordCharacters(c);
    }
    if 1 <= n <= |s| {
      RunExactly(IsWordContinue, s[1..], n - 1);
      assert forall i | 0 <= i < n - 1 :: s[1..][i] == s[..n][i + 1];
    }
  }

  /** Where a spelling starts tells which token it can be. */
  lemma StartTells(mode: Mode, s: string, n: nat, t: Token)
    requires LexemeAt(mode, s, n, t)
    ensures match t
            case Word(_) => IsWordStart(s[0])
            case Integer(_) => s[0] == '-' || IsDigit(s[0])
            case Text(_) => s[0] == '"'
            case Operator(_) => s[0] in "=!<>"
            case Pipe => s[0] == '|'
            case Comma => s[0] == ','
            case LeftParen => s[0] == '('
            case RightParen => s[0] == ')'
            case Mark => s[0] == '?'
            case Eof => false
  {
    assert s[..n][0] == s[0];
    if t.Integer? && IsDigits(s[..n]) {
      assert s[..n][0] in s[..n];
    }
  }

  lemma OperatorExactly(mode: Mode, s: string, t: Token, n: nat)
    requires s != "" && s[0] in "=!<>"
    ensures ScanOperator(s) == Scanned(t, n) <==> t.Operator? && LexemeAt(mode, s, n, t)
  {
    if n == 1 {
      assert s[..1] == [s[0]];
    } else if n == 2 && |s| >= 2 {
      assert s[..2] == [s[0], s[1]];
    }
  }

  lemma OneCharacter(mode: Mode, s: string, t: Token, n: nat)
    requires s != "" && s[0] in "|,()?"
    ensures ScanToken(mode, s) == Scanned(t, n) <==> LexemeAt(mode, s, n, t)
  {
    assert s[..1] == [s[0]];
    if LexemeAt(mode, s, n, t) {
      StartTells(mode, s, n, t);
    }
  }

  /** The token at the front of a text is exactly the lexeme there, with its length. */
  lemma ScanExactly(mode: Mode, s: string, t: Token, n: nat)
    requires s != "" && !IsSpace(s[0])
    ensures ScanToken(mode, s) == Scanned(t, n) <==> LexemeAt(mode, s, n, t)
  {
    if LexemeAt(mode, s, n, t) {
      StartTells(mode, s, n, t);
    }
    if s[0] in "|,()?" {
      OneCharacter(mode, s, t, n);
    } else if s[0] == '"' {
      StringExactly(mode, s, t, n);
    } else if s[0] in "=!<>" {
      OperatorExactly(mode, s, t, n);
    } else if s[0] == '-' || IsDigit(s[0]) {
      IntegerExactly(s, t, n, mode);
    } else if IsWordStart(s[0]) {
      WordExactly(s, t, n, mode);
    }
  }

  // ---------- The whole text

  /** The text is these tokens, spelled one after another, with spaces between, before and behind them. */
  ghost predicate Reads(mode: Mode, s: string, ts: seq<Token>)
    decreases |s|
  {
    if s == "" then ts == []
    else if s[0] in " \n\r\t" then Reads(mode, s[1..], ts)
    else ts != [] && exists n: nat :: LexemeAt(mode, s, n, ts[0]) && Reads(mode, s[n..], ts[1..])
  }

  /** Once the last token allowed is found nothing more may follow it, not even a space. */
  predicate Enough(s: string, count: nat, budget: nat) {
    count < budget || (count == budget && (s == "" || s[|s| - 1] !in " \n\r\t"))
  }

  lemma {:induction false} LexExactly(mode: Mode, s: string, budget: nat, ts: seq<Token>)
    ensures Lex(mode, s, budget) == Ok(ts) <==> Reads(mode, s, ts) && Enough(s, |ts|, budget)
    decreases |s|, 2
  {
    if s == "" {
    } else if IsSpace(s[0]) {
      LexExactly(mode, s[1..], budget, ts);
    } else {
      FirstExactly(mode, s, budget, ts);
    }
  }

  lemma {:induction false} FirstExactly(mode: Mode, s: string, budget: nat, ts: seq<Token>)
    requires s != "" && !IsSpace(s[0])
    ensures Lex(mode, s, budget) == Ok(ts) <==> Reads(mode, s, ts) && Enough(s, |ts|, budget)
    decreases |s|, 1
  {
    if Reads(mode, s, ts) {
      var n: nat :| LexemeAt(mode, s, n, ts[0]) && Reads(mode, s[n..], ts[1..]);
      ScanExactly(mode, s, ts[0], n);
      RestExactly(mode, s, budget, ts, n);
    } else if Lex(mode, s, budget) == Ok(ts) {
      var scan := ScanToken(mode, s);
      ScanExactly(mode, s, scan.token, scan.length);
      assert ts == [scan.token] + ts[1..];
      RestExactly(mode, s, budget, ts, scan.length);
      assert false;
    }
  }

  /** After the first lexeme the rest is read with one token less to spend. */
  lemma {:induction false} RestExactly(mode: Mode, s: string, budget: nat, ts: seq<Token>, n: nat)
    requires s != "" && !IsSpace(s[0]) && ts != [] && LexemeAt(mode, s, n, ts[0])
    requires ScanToken(mode, s) == Scanned(ts[0], n)
    ensures Lex(mode, s, budget) == Ok(ts) <==> Reads(mode, s[n..], ts[1..]) && Enough(s, |ts|, budget)
    decreases |s|, 0
  {
    if budget > 0 {
      LexemeEnds(mode, s, n, ts[0]);
      LexExactly(mode, s[n..], budget - 1, ts[1..]);
      if Lex(mode, s[n..], budget - 1).Ok? {
        assert ([ts[0]] + Lex(mode, s[n..], budget - 1).value)[1..] == Lex(mode, s[n..], budget - 1).value;
      }
      assert ts == [ts[0]] + ts[1..];
    }
  }

  /** No lexeme ends in a space. */
  lemma LexemeEnds(mode: Mode, s: string, n: nat, t: Token)
    requires LexemeAt(mode, s, n, t)
    ensures !IsSpace(s[n - 1])
  {
    var x := s[..n];
    assert x[n - 1] == s[n - 1] && x[n - 1] in x;
    if t.Integer? && !IsDigits(x) {
      assert x[1..][n - 2] == x[n - 1] && x[1..][n - 2] in x[1..];
    }
  }

  /** The tokenizer accepts exactly the texts of at most 4096 lexemes and 65536 bytes, and returns their tokens. */
  lemma TokenizesExactly(mode: Mode, input: string, validUtf8: bool, ts: seq<Token>)
    ensures Tokens(mode, input, validUtf8) == Ok(ts + [Eof]) <==>
            0 < |input| <= 65536 && validUtf8 && Reads(mode, input, ts) && Enough(input, |ts|, 4096)
  {
    LexExactly(mode, input, 4096, ts);
    var r := Lex(mode, input, 4096);
    if r.Ok? {
      assert (r.value + [Eof])[..|r.value|] == r.value && (ts + [Eof])[..|ts|] == ts;
    }
  }
}
