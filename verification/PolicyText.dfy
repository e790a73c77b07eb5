/** Reading policy text: the lexer, and the evaluation of a text. */
module PolicyText {
  import opened Options
  import opened PolicyExpr

  // ----- the lexer

  predicate IsSpace(c: char) {
    c == ' ' || '\t' <= c <= '\r' || c == '\U{a0}' || c == '\U{feff}' || c == '\U{1680}'
    || '\U{2000}' <= c <= '\U{200a}'
    || c == '\U{2028}' || c == '\U{2029}' || c == '\U{202f}' || c == '\U{205f}' || c == '\U{3000}'
  }

  predicate IsNumberChar(c: char) { IsDigit(c) || c == '.' }

  predicate IsIdentStart(c: char) { 'a' <= c <= 'z' || 'A' <= c <= 'Z' || c == '_' }

  predicate IsIdentChar(c: char) { IsIdentStart(c) || IsDigit(c) }

  /** The operator of two characters at the start of the text. */
  function TwoChar(s: string): Option<Kind> {
    if |s| < 2 then None
    else if s[..2] == "&&" then Some(AND)
    else if s[..2] == "||" then Some(OR)
    else if s[..2] == ">=" then Some(GTE)
    else if s[..2] == "<=" then Some(LTE)
    else if s[..2] == "==" then Some(EQ)
    else if s[..2] == "!=" then Some(NEQ)
    else None
  }

  function OneChar(c: char): Option<Kind> {
    if c == '>' then Some(GT)
    else if c == '<' then Some(LT)
    else if c == '!' then Some(NOT)
    else if c == '(' then Some(LPAREN)
    else if c == ')' then Some(RPAREN)
    else None
  }

  function Span(s: string, p: char -> bool): (n: nat)
    ensures n <= |s|
    ensures forall i :: 0 <= i < n ==> p(s[i])
    ensures n < |s| ==> !p(s[n])
  {
    if s == "" || !p(s[0]) then 0 else 1 + Span(s[1..], p)
  }

  /** The first token of a text that does not start with white space. */
  function FirstToken(s: string): Option<Token>
    requires s != ""
  {
    if TwoChar(s).Some? then Some(Token(TwoChar(s).value, s[..2]))
    else if OneChar(s[0]).Some? then Some(Token(OneChar(s[0]).value, s[..1]))
    else if IsDigit(s[0]) then Some(Token(NUMBER, s[..Span(s, IsNumberChar)]))
    else if IsIdentStart(s[0]) then Some(Token(IDENT, s[..Span(s, IsIdentChar)]))
    else None
  }

  function Lex(s: string): Option<seq<Token>>
    decreases |s|
  {
    if s == "" then Some([Token(EOF, "")])
    else if IsSpace(s[0]) then Lex(s[1..])
    else if FirstToken(s).None? then None
    else
      var t := FirstToken(s).value;
      assert 0 < |t.text| <= |s|;
      Prepend([t], Lex(s[|t.text|..]))
  }

  function Prepend(ts: seq<Token>, r: Option<seq<Token>>): Option<seq<Token>> {
    if r.None? then None else Some(ts + r.value)
  }

  lemma PrependTwice(a: seq<Token>, b: seq<Token>, r: Option<seq<Token>>)
    ensures Prepend(a, Prepend(b, r)) == Prepend(a + b, r) && Prepend([], r) == r
  {
    if r.Some? {
      assert a + (b + r.value) == a + b + r.value;
      assert [] + r.value == r.value;
    }
  }

  method ScanWhile(expr: string, start: nat, p: char -> bool) returns (i: nat)
    requires start <= |expr|
    ensures i == start + Span(expr[start..], p)
  {
    i := start;
    while i < |expr| && p(expr[i])
      invariant start <= i <= |expr|
      invariant i + Span(expr[i..], p) == start + Span(expr[start..], p)
    {
      assert expr[i..][1..] == expr[i + 1..];
      i := i + 1;
    }
  }

  /** The token at position `i`, which is not white space. */
  method TokenAt(expr: string, i: nat) returns (r: Option<Token>)
    requires i < |expr|
    ensures r == FirstToken(expr[i..])
  {
    ghost var rest := expr[i..];
    assert rest[0] == expr[i];
    if i + 1 < |expr| {
      assert rest[..2] == expr[i..i + 2];
      if TwoChar(expr[i..i + 2]).Some? {
        return Some(Token(TwoChar(expr[i..i + 2]).value, expr[i..i + 2]));
      }
    }
    if OneChar(expr[i]).Some? {
      assert rest[..1] == [expr[i]];
      return Some(Token(OneChar(expr[i]).value, [expr[i]]));
    }
    if IsDigit(expr[i]) {
      var j := ScanWhile(expr, i, IsNumberChar);
      assert rest[..j - i] == expr[i..j];
      return Some(Token(NUMBER, expr[i..j]));
    }
    if IsIdentStart(expr[i]) {
      var j := ScanWhile(expr, i, IsIdentChar);
      assert rest[..j - i] == expr[i..j];
      return Some(Token(IDENT, expr[i..j]));
    }
    return None;
  }

  lemma TokenFits(s: string)
    requires s != "" && FirstToken(s).Some?
    ensures 0 < |FirstToken(s).value.text| <= |s|
  {
  }

  /** The whole text as tokens ending in EOF, or a failure at the first character that starts none. */
  method Tokenize(expr: string) returns (r: Option<seq<Token>>)
    ensures r == Lex(expr)
  {
    var tokens: seq<Token> := [];
    var i := 0;
    assert expr[0..] == expr;
    PrependTwice([], [], Lex(expr));
    while i < |expr|
      invariant 0 <= i <= |expr| && Prepend(tokens, Lex(expr[i..])) == Lex(expr)
    {
      if IsSpace(expr[i]) {
        assert expr[i..][1..] == expr[i + 1..];
        i := i + 1;
        continue;
      }
      var t := TokenAt(expr, i);
      if t.None? { return None; }
      TokenFits(expr[i..]);
      var j := i + |t.value.text|;
      assert expr[i..][|t.value.text|..] == expr[j..];
      PrependTwice(tokens, [t.value], Lex(expr[j..]));
      tokens, i := tokens + [t.value], j;
    }
    assert expr[i..] == "";
    return Some(tokens + [Token(EOF, "")]);
  }

  lemma {:induction false} LexEndsInEof(s: string)
    ensures Lex(s).Some? ==> EndsInEof(Lex(s).value)
    decreases |s|
  {
    if s != "" {
      if IsSpace(s[0]) {
        LexEndsInEof(s[1..]);
      } else if FirstToken(s).Some? {
        LexEndsInEof(s[|FirstToken(s).value.text|..]);
      }
    }
  }

  /** None stands for a thrown error. */
  method EvaluateCondition(expr: string, vars: Vars) returns (r: Option<bool>)
    ensures Span(expr, IsSpace) == |expr| || |expr| > 1024 ==> r == None
    ensures Span(expr, IsSpace) < |expr| && |expr| <= 1024 ==> r == Evaluate(expr, vars)
  {
    if Span(expr, IsSpace) == |expr| { return None; }
    if |expr| > 1024 { return None; }
    var tokens := Tokenize(expr);
    if tokens.None? { return None; }
    LexEndsInEof(expr);
    var parser := new Parser(tokens.value, vars);
    r := parser.ParseAll();
  }

  function Evaluate(expr: string, vars: Vars): Option<bool> {
    LexEndsInEof(expr);
    if Lex(expr).None? then None else Parse(Lex(expr).value, vars)
  }
}
