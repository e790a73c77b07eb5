/** Expression trees: their meaning, their text, and the round trip through lexer and parser. */
module PolicyRoundTrip {
  import opened Options
  import opened PolicyExpr
  import opened PolicyText

  datatype Expr =
    | Or(left: Expr, right: Expr)
    | And(left: Expr, right: Expr)
    | Not(inner: Expr)
    | Cmp(op: Kind, a: Operand, b: Operand)
    | Truthy(a: Operand)

  datatype Operand = Num(text: string) | Var(name: string) | Group(expr: Expr)

  /** Numerals and names are spelled as the lexer spells them, operators are comparisons. */
  predicate WellFormed(e: Expr) {
    match e
    case Or(l, r) => WellFormed(l) && WellFormed(r)
    case And(l, r) => WellFormed(l) && WellFormed(r)
    case Not(i) => WellFormed(i)
    case Cmp(op, a, b) => IsComparison(op) && WellFormedOperand(a) && WellFormedOperand(b)
    case Truthy(a) => WellFormedOperand(a)
  }

  predicate WellFormedOperand(o: Operand) {
    match o
    case Num(s) => s != "" && IsDigit(s[0]) && forall i :: 0 <= i < |s| ==> IsNumberChar(s[i])
    case Var(s) => s != "" && IsIdentStart(s[0]) && forall i :: 0 <= i < |s| ==> IsIdentChar(s[i])
    case Group(e) => WellFormed(e)
  }

  // ----- meaning: both sides are always evaluated, so an unknown name or a malformed numeral anywhere is an error

  function Eval(e: Expr, vars: Vars): Option<bool>
    requires WellFormed(e)
  {
    match e
    case Or(l, r) =>
      (match (Eval(l, vars), Eval(r, vars))
       case (Some(x), Some(y)) => Some(x || y)
       case _ => None)
    case And(l, r) =>
      (match (Eval(l, vars), Eval(r, vars))
       case (Some(x), Some(y)) => Some(x && y)
       case _ => None)
    case Not(i) =>
      (match Eval(i, vars)
       case Some(x) => Some(!x)
       case None => None)
    case Cmp(op, a, b) =>
      (match (EvalOperand(a, vars), EvalOperand(b, vars))
       case (Some(x), Some(y)) => Some(Compare(op, x, y))
       case _ => None)
    case Truthy(a) =>
      (match EvalOperand(a, vars)
       case Some(x) => Some(x != 0.0)
       case None => None)
  }

  function EvalOperand(o: Operand, vars: Vars): Option<real>
    requires WellFormedOperand(o)
  {
    match o
    case Num(s) => Literal(s, vars)
    case Var(s) => if s in vars.values then Some(vars.values[s]) else None
    case Group(e) =>
      (match Eval(e, vars)
       case Some(x) => Some(if x then 1.0 else 0.0)
       case None => None)
  }

  // ----- tokens of a tree: parentheses where the grammar needs them

  function Prec(e: Expr): nat {
    match e
    case Or(_, _) => 0
    case And(_, _) => 1
    case _ => 2
  }

  const LP := Token(LPAREN, "(")
  const RP := Token(RPAREN, ")")

  function OpText(k: Kind): string {
    match k
    case GT => ">"
    case LT => "<"
    case GTE => ">="
    case LTE => "<="
    case EQ => "=="
    case _ => "!="
  }

  function Toks(e: Expr, level: nat): seq<Token>
    decreases e, 1
  {
    if Prec(e) < level then [LP] + Body(e) + [RP] else Body(e)
  }

  function Body(e: Expr): seq<Token>
    decreases e, 0
  {
    match e
    case Or(l, r) => Toks(l, 0) + [Token(OR, "||")] + Toks(r, 1)
    case And(l, r) => Toks(l, 1) + [Token(AND, "&&")] + Toks(r, 2)
    case Not(i) => [Token(NOT, "!")] + Toks(i, 2)
    case Cmp(op, a, b) => OperandToks(a) + [Token(op, OpText(op))] + OperandToks(b)
    case Truthy(a) => OperandToks(a)
  }

  function OperandToks(o: Operand): seq<Token>
    decreases o, 0
  {
    match o
    case Num(s) => [Token(NUMBER, s)]
    case Var(s) => [Token(IDENT, s)]
    case Group(e) => [LP] + Toks(e, 0) + [RP]
  }

  // ----- parsing the tokens of a tree

  /** The next token does not extend a value, and at `level` 0 not a conjunction either. */
  predicate Follows(rest: seq<Token>, level: nat) {
    EndsInEof(rest) && !IsComparison(rest[0].kind) && (level <= 0 ==> rest[0].kind != AND)
  }

  function Rank(e: Expr, level: nat): nat {
    match e
    case Or(_, _) => if level == 1 then 3 else if level == 2 then 2 else 1
    case And(_, _) => if level == 2 then 3 else if level == 0 then 2 else 1
    case _ => if level == 0 then 3 else if level == 1 then 2 else 1
  }

  lemma {:induction false} ValueOf(o: Operand, rest: seq<Token>, vars: Vars)
    requires WellFormedOperand(o) && EndsInEof(rest)
    ensures ParseValue(OperandToks(o) + rest, vars)
            == match EvalOperand(o, vars) case Some(x) => Ok(x, rest) case None => Fail
    decreases o, 0
  {
    var ts := OperandToks(o) + rest;
    match o {
      case Num(s) => assert ts[1..] == rest;
      case Var(s) => assert ts[1..] == rest;
      case Group(e) =>
        GroupOf(e, rest, vars);
    }
  }

  lemma {:induction false} GroupOf(e: Expr, rest: seq<Token>, vars: Vars)
    requires WellFormed(e) && EndsInEof(rest)
    ensures ParseValue([LP] + Toks(e, 0) + [RP] + rest, vars)
            == match Eval(e, vars) case Some(x) => Ok(if x then 1.0 else 0.0, rest) case None => Fail
    decreases e, 2 * Rank(e, 0) + 1
  {
    var ts, after := [LP] + Toks(e, 0) + [RP] + rest, [RP] + rest;
    assert ts[0] == LP && ts[1..] == Toks(e, 0) + after && after[1..] == rest;
    OrOf(e, after, vars);
    GroupedValue(ts, vars);
  }

  lemma {:induction false} NotOf(e: Expr, rest: seq<Token>, vars: Vars)
    requires WellFormed(e) && Follows(rest, 2)
    ensures ParseNot(Toks(e, 2) + rest, vars) == match Eval(e, vars) case Some(x) => Ok(x, rest) case None => Fail
    decreases e, 2 * Rank(e, 2)
  {
    var ts := Toks(e, 2) + rest;
    match e {
      case Not(i) =>
        assert Toks(e, 2) == Body(e) == [Token(NOT, "!")] + Toks(i, 2);
        assert ts[0].kind == NOT && ts[1..] == Toks(i, 2) + rest;
        NotOf(i, rest, vars);
      case Cmp(op, a, b) => ComparisonOf(e, rest, vars);
      case Truthy(a) => TruthOf(e, rest, vars);
      case Or(_, _) => ParenthesizedOf(e, rest, vars);
      case And(_, _) => ParenthesizedOf(e, rest, vars);
    }
  }

  lemma {:induction false} ComparisonOf(e: Expr, rest: seq<Token>, vars: Vars)
    requires WellFormed(e) && Follows(rest, 2) && e.Cmp?
    ensures ParseNot(Toks(e, 2) + rest, vars) == match Eval(e, vars) case Some(x) => Ok(x, rest) case None => Fail
    decreases e, 2 * Rank(e, 2), 0
  {
    var ts, after := Toks(e, 2) + rest, [Token(e.op, OpText(e.op))] + (OperandToks(e.b) + rest);
    ComparisonToks(e, rest);
    ValueOf(e.a, after, vars);
    ValueOf(e.b, rest, vars);
    OperandStart(e.a, after);
    ComparisonParsed(ts, after, rest, EvalOperand(e.a, vars), EvalOperand(e.b, vars), vars);
  }

  /** How the descent goes on from a value that is compared. */
  lemma ComparisonParsed(ts: seq<Token>, after: seq<Token>, rest: seq<Token>, a: Option<real>, b: Option<real>,
                         vars: Vars)
    requires EndsInEof(ts) && ts[0].kind != NOT && EndsInEof(after) && IsComparison(after[0].kind) && |after| > 1
    requires ParseValue(ts, vars) == match a case Some(x) => Ok(x, after) case None => Fail
    requires ParseValue(after[1..], vars) == match b case Some(y) => Ok(y, rest) case None => Fail
    ensures ParseNot(ts, vars)
            == if a.Some? && b.Some? then Ok(Compare(after[0].kind, a.value, b.value), rest) else Fail
  {
    NoNegation(ts, vars);
    if a.Some? {
      BareOrCompared(ts, after, a.value, vars);
    }
  }

  lemma NoNegation(ts: seq<Token>, vars: Vars)
    requires EndsInEof(ts) && ts[0].kind != NOT
    ensures ParseNot(ts, vars) == ParseComparison(ts, vars)
    ensures ParseValue(ts, vars).Fail? ==> ParseComparison(ts, vars).Fail?
  {
  }

  lemma ComparisonToks(e: Expr, rest: seq<Token>)
    requires e.Cmp?
    ensures var after := [Token(e.op, OpText(e.op))] + (OperandToks(e.b) + rest);
            Toks(e, 2) + rest == OperandToks(e.a) + after && after[1..] == OperandToks(e.b) + rest
  {
    assert Toks(e, 2) == Body(e) == OperandToks(e.a) + [Token(e.op, OpText(e.op))] + OperandToks(e.b);
  }

  lemma {:induction false} TruthOf(e: Expr, rest: seq<Token>, vars: Vars)
    requires WellFormed(e) && Follows(rest, 2) && e.Truthy?
    ensures ParseNot(Toks(e, 2) + rest, vars) == match Eval(e, vars) case Some(x) => Ok(x, rest) case None => Fail
    decreases e, 2 * Rank(e, 2), 0
  {
    var ts := Toks(e, 2) + rest;
    assert Toks(e, 2) == Body(e) == OperandToks(e.a);
    ValueOf(e.a, rest, vars);
    OperandStart(e.a, rest);
    BareValue(ts, vars);
  }

  lemma OperandStart(o: Operand, rest: seq<Token>)
    ensures (OperandToks(o) + rest)[0].kind != NOT
  {
  }

  lemma {:induction false} ParenthesizedOf(e: Expr, rest: seq<Token>, vars: Vars)
    requires WellFormed(e) && Follows(rest, 2) && Prec(e) < 2
    ensures ParseNot(Toks(e, 2) + rest, vars) == match Eval(e, vars) case Some(x) => Ok(x, rest) case None => Fail
    decreases e, 2 * Rank(e, 2), 0
  {
    var ts := Toks(e, 2) + rest;
    assert Toks(e, 0) == Body(e) && Toks(e, 2) == [LP] + Body(e) + [RP];
    GroupOf(e, rest, vars);
    BareValue(ts, vars);
  }

  /** How the descent goes on from a value and from a parenthesis. */
  lemma BareValue(ts: seq<Token>, vars: Vars)
    requires EndsInEof(ts) && ts[0].kind != NOT
    requires ParseValue(ts, vars).Ok? ==> !IsComparison(ParseValue(ts, vars).rest[0].kind)
    ensures ParseNot(ts, vars) == match ParseValue(ts, vars) case Fail => Fail case Ok(x, rest) => Ok(x != 0.0, rest)
  {
  }

  lemma GroupedValue(ts: seq<Token>, vars: Vars)
    requires EndsInEof(ts) && ts[0].kind == LPAREN && |ts| > 1
    ensures ParseValue(ts, vars) == match ParseOr(ts[1..], vars)
                                    case Fail => Fail
                                    case Ok(v, rest) =>
                                      if rest[0].kind == RPAREN then Ok(if v then 1.0 else 0.0, rest[1..]) else Fail
  {
  }

  lemma {:induction false} AndOf(e: Expr, rest: seq<Token>, vars: Vars)
    requires WellFormed(e) && Follows(rest, 1)
    ensures ParseAnd(Toks(e, 1) + rest, vars)
            == match Eval(e, vars) case Some(x) => AndTail(x, rest, vars) case None => Fail
    decreases e, 2 * Rank(e, 1)
  {
    if e.And? {
      var after := [Token(AND, "&&")] + (Toks(e.right, 2) + rest);
      assert Toks(e, 1) + rest == Toks(e.left, 1) + after && after[1..] == Toks(e.right, 2) + rest;
      AndOf(e.left, after, vars);
      NotOf(e.right, rest, vars);
    } else {
      NotOf(e, rest, vars);
    }
  }

  lemma {:induction false} OrOf(e: Expr, rest: seq<Token>, vars: Vars)
    requires WellFormed(e) && Follows(rest, 0)
    ensures ParseOr(Toks(e, 0) + rest, vars)
            == match Eval(e, vars) case Some(x) => OrTail(x, rest, vars) case None => Fail
    decreases e, 2 * Rank(e, 0)
  {
    if e.Or? {
      var after := [Token(OR, "||")] + (Toks(e.right, 1) + rest);
      assert Toks(e, 0) + rest == Toks(e.left, 0) + after && after[1..] == Toks(e.right, 1) + rest;
      OrOf(e.left, after, vars);
      AndOf(e.right, rest, vars);
    } else {
      AndOf(e, rest, vars);
    }
  }

  lemma TokensRoundTrip(e: Expr, vars: Vars)
    requires WellFormed(e)
    ensures Parse(Toks(e, 0) + [Token(EOF, "")], vars) == Eval(e, vars)
  {
    OrOf(e, [Token(EOF, "")], vars);
  }

  // ----- lexing the text of a tree

  function Render(ts: seq<Token>): string {
    if ts == [] then "" else ts[0].text + " " + Render(ts[1..])
  }

  /** The text of the token reads back as the token. */
  predicate Printable(t: Token) {
    match t.kind
    case NUMBER => WellFormedOperand(Num(t.text))
    case IDENT => WellFormedOperand(Var(t.text))
    case AND => t.text == "&&"
    case OR => t.text == "||"
    case NOT => t.text == "!"
    case LPAREN => t.text == "("
    case RPAREN => t.text == ")"
    case EOF => false
    case _ => t.text == OpText(t.kind)
  }

  lemma {:induction false} SpanStops(s: string, rest: string, p: char -> bool)
    requires (forall i :: 0 <= i < |s| ==> p(s[i])) && !p(' ')
    ensures Span(s + " " + rest, p) == |s|
  {
    if s != "" {
      assert (s + " " + rest)[1..] == s[1..] + " " + rest;
      SpanStops(s[1..], rest, p);
    }
  }

  lemma FirstTokenOf(t: Token, rest: string)
    requires Printable(t)
    ensures var s := t.text + " " + rest;
            t.text != "" && !IsSpace(s[0]) && FirstToken(s) == Some(t)
  {
    var s := t.text + " " + rest;
    assert s[..|t.text|] == t.text;
    assert s[0] == t.text[0] && s[..2][0] == s[0] && s[..2][1] == s[1];
    assert |t.text| == 1 ==> s[1] == ' ';
    assert |t.text| == 2 ==> s[..2] == t.text;
    if t.kind == NUMBER {
      SpanStops(t.text, rest, IsNumberChar);
    } else if t.kind == IDENT {
      SpanStops(t.text, rest, IsIdentChar);
    }
  }

  lemma LexNext(t: Token, rest: string)
    requires Printable(t)
    ensures Lex(t.text + " " + rest) == Prepend([t], Lex(rest))
  {
    var s := t.text + " " + rest;
    FirstTokenOf(t, rest);
    assert s[|t.text|..] == " " + rest && (" " + rest)[1..] == rest;
  }

  lemma PrependFirst(ts: seq<Token>)
    requires ts != []
    ensures Prepend([ts[0]], Some(ts[1..] + [Token(EOF, "")])) == Some(ts + [Token(EOF, "")])
  {
    assert [ts[0]] + (ts[1..] + [Token(EOF, "")]) == ts + [Token(EOF, "")];
  }

  lemma {:induction false} LexRender(ts: seq<Token>)
    requires forall i :: 0 <= i < |ts| ==> Printable(ts[i])
    ensures Lex(Render(ts)) == Some(ts + [Token(EOF, "")])
  {
    if ts == [] {
      assert ts + [Token(EOF, "")] == [Token(EOF, "")];
    } else {
      var t, rest := ts[0], Render(ts[1..]);
      LexNext(t, rest);
      LexRender(ts[1..]);
      PrependFirst(ts);
    }
  }

  lemma {:induction false} TokensPrintable(e: Expr, level: nat)
    requires WellFormed(e)
    ensures forall i :: 0 <= i < |Toks(e, level)| ==> Printable(Toks(e, level)[i])
    ensures forall i :: 0 <= i < |Body(e)| ==> Printable(Body(e)[i])
    decreases e, 1
  {
    assert Printable(LP) && Printable(RP);
    match e {
      case Or(l, r) => TokensPrintable(l, 0); TokensPrintable(r, 1);
      case And(l, r) => TokensPrintable(l, 1); TokensPrintable(r, 2);
      case Not(i) => TokensPrintable(i, 2);
      case Cmp(op, a, b) => OperandPrintable(a); OperandPrintable(b);
      case Truthy(a) => OperandPrintable(a);
    }
    assert forall i :: 0 <= i < |Body(e)| ==> Printable(Body(e)[i]);
    assert Toks(e, level) == Body(e) || Toks(e, level) == [LP] + Body(e) + [RP];
  }

  lemma {:induction false} OperandPrintable(o: Operand)
    requires WellFormedOperand(o)
    ensures forall i :: 0 <= i < |OperandToks(o)| ==> Printable(OperandToks(o)[i])
    decreases o, 1
  {
    if o.Group? {
      TokensPrintable(o.expr, 0);
    }
  }

  /** Evaluating the printed text of any tree gives the value of the tree, errors included. */
  lemma TextRoundTrip(e: Expr, vars: Vars)
    requires WellFormed(e)
    ensures Evaluate(Render(Toks(e, 0)), vars) == Eval(e, vars)
  {
    TokensPrintable(e, 0);
    LexRender(Toks(e, 0));
    TokensRoundTrip(e, vars);
  }

  // ----- what the operators mean, on the text

  lemma {:induction false} RenderConcat(a: seq<Token>, b: seq<Token>)
    ensures Render(a + b) == Render(a) + Render(b)
  {
    if a == [] {
      assert a + b == b;
    } else {
      assert (a + b)[1..] == a[1..] + b;
      RenderConcat(a[1..], b);
    }
  }

  lemma RenderOne(t: Token)
    ensures Render([t]) == t.text + " "
  {
    assert [t][1..] == [];
  }

  lemma RenderThree(a: seq<Token>, t: Token, b: seq<Token>)
    ensures Render(a + [t] + b) == Render(a) + t.text + " " + Render(b)
  {
    RenderConcat(a + [t], b);
    RenderConcat(a, [t]);
    RenderOne(t);
  }

  /** An operator is written between its operands. */
  lemma ComparisonText(op: Kind, a: Operand, b: Operand)
    ensures Render(Toks(Cmp(op, a, b), 0)) == Render(OperandToks(a)) + OpText(op) + " " + Render(OperandToks(b))
  {
    RenderThree(OperandToks(a), Token(op, OpText(op)), OperandToks(b));
  }

  lemma OperatorTexts()
    ensures OpText(GT) == ">" && OpText(LT) == "<" && OpText(GTE) == ">=" && OpText(LTE) == "<="
    ensures OpText(EQ) == "==" && OpText(NEQ) == "!="
  {
  }

  /** The six comparisons are those of the numbers. */
  lemma ComparisonMeans(op: Kind, a: Operand, b: Operand, vars: Vars, x: real, y: real)
    requires IsComparison(op) && WellFormedOperand(a) && WellFormedOperand(b)
    requires EvalOperand(a, vars) == Some(x) && EvalOperand(b, vars) == Some(y)
    ensures var r := Evaluate(Render(Toks(Cmp(op, a, b), 0)), vars);
            (op == GT ==> r == Some(x > y)) && (op == LT ==> r == Some(x < y))
            && (op == GTE ==> r == Some(x >= y)) && (op == LTE ==> r == Some(x <= y))
            && (op == EQ ==> r == Some(x == y)) && (op == NEQ ==> r == Some(x != y))
  {
    TextRoundTrip(Cmp(op, a, b), vars);
  }

  /** Conjunction, disjunction and negation are those of the truth values, and a bare value is true unless zero. */
  lemma ConnectivesMean(l: Expr, r: Expr, a: Operand, vars: Vars, p: bool, q: bool, x: real)
    requires WellFormed(l) && WellFormed(r) && Eval(l, vars) == Some(p) && Eval(r, vars) == Some(q)
    requires WellFormedOperand(a) && EvalOperand(a, vars) == Some(x)
    ensures Evaluate(Render(Toks(And(l, r), 0)), vars) == Some(p && q)
    ensures Evaluate(Render(Toks(Or(l, r), 0)), vars) == Some(p || q)
    ensures Evaluate(Render(Toks(Not(l), 0)), vars) == Some(!p)
    ensures Evaluate(Render(Toks(Truthy(a), 0)), vars) == Some(x != 0.0)
    ensures EvalOperand(Group(l), vars) == Some(if p then 1.0 else 0.0)
  {
    TextRoundTrip(And(l, r), vars);
    TextRoundTrip(Or(l, r), vars);
    TextRoundTrip(Not(l), vars);
    TextRoundTrip(Truthy(a), vars);
  }

  /** An error in either part is an error of the whole: nothing is skipped. */
  lemma ErrorsSpread(l: Expr, r: Expr, vars: Vars)
    requires WellFormed(l) && WellFormed(r) && (Eval(l, vars).None? || Eval(r, vars).None?)
    ensures Evaluate(Render(Toks(And(l, r), 0)), vars) == None == Evaluate(Render(Toks(Or(l, r), 0)), vars)
  {
    TextRoundTrip(And(l, r), vars);
    TextRoundTrip(Or(l, r), vars);
  }

  /** The connectives are written between their parts, with parentheses around a part that binds less. */
  lemma AndText(l: Expr, r: Expr)
    ensures Render(Toks(And(l, r), 0)) == Render(Toks(l, 1)) + "&&" + " " + Render(Toks(r, 2))
  {
    RenderThree(Toks(l, 1), Token(AND, "&&"), Toks(r, 2));
  }

  lemma OrText(l: Expr, r: Expr)
    ensures Render(Toks(Or(l, r), 0)) == Render(Toks(l, 0)) + "||" + " " + Render(Toks(r, 1))
  {
    RenderThree(Toks(l, 0), Token(OR, "||"), Toks(r, 1));
  }

  lemma NotText(e: Expr)
    ensures Render(Toks(Not(e), 0)) == "!" + " " + Render(Toks(e, 2))
  {
    RenderConcat([Token(NOT, "!")], Toks(e, 2));
    RenderOne(Token(NOT, "!"));
  }

  lemma ParenthesisText(e: Expr, level: nat)
    requires Prec(e) < level
    ensures Render(Toks(e, level)) == "(" + " " + Render(Toks(e, 0)) + (")" + " ")
  {
    RenderConcat([LP] + Body(e), [RP]);
    RenderConcat([LP], Body(e));
    RenderOne(LP);
    RenderOne(RP);
  }
}
