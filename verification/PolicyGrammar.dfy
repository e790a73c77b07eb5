/** Exactly which texts are conditions, and what numerals stand for. */
module PolicyGrammar {
  import opened Options
  import opened Decimal
  import opened PolicyExpr
  import opened PolicyText
  import opened PolicyRoundTrip

  /** Tokens as the lexer makes them: each spelled as its kind demands, and EOF at the end only. */
  ghost predicate Spelled(ts: seq<Token>) {
    EndsInEof(ts) && ts[|ts| - 1].text == "" && forall i :: 0 <= i < |ts| - 1 ==> Printable(ts[i])
  }

  lemma SpelledRest(ts: seq<Token>, n: nat)
    requires Spelled(ts) && n < |ts|
    ensures Spelled(ts[n..])
  {
    assert forall i :: 0 <= i < |ts| - n ==> ts[n..][i] == ts[i + n];
  }

  lemma OrToks(left: Expr, right: Expr, ts: seq<Token>, rest: seq<Token>)
    requires ts != [] && ts[0] == Token(OR, "||") && ts[1..] == Toks(right, 1) + rest
    ensures Toks(Expr.Or(left, right), 0) + rest == Toks(left, 0) + ts
  {
    assert ts == [ts[0]] + ts[1..];
  }

  lemma AndToks(left: Expr, right: Expr, ts: seq<Token>, rest: seq<Token>)
    requires ts != [] && ts[0] == Token(AND, "&&") && ts[1..] == Toks(right, 2) + rest
    ensures Toks(Expr.And(left, right), 1) + rest == Toks(left, 1) + ts
  {
    assert ts == [ts[0]] + ts[1..];
  }

  // ----- every successful descent reads a tree

  lemma {:induction false} OrTree(ts: seq<Token>, vars: Vars) returns (e: Expr)
    requires Spelled(ts) && ParseOr(ts, vars).Ok?
    ensures var r := ParseOr(ts, vars);
            WellFormed(e) && ts == Toks(e, 0) + r.rest && Eval(e, vars) == Some(r.value) && Spelled(r.rest)
    decreases |ts|, 6
  {
    var first := AndTree(ts, vars);
    var mid := ParseAnd(ts, vars).rest;
    assert Toks(first, 0) == Toks(first, 1);
    e := OrTailTree(first, mid, vars);
  }

  lemma {:induction false} OrTailTree(left: Expr, ts: seq<Token>, vars: Vars) returns (e: Expr)
    requires Spelled(ts) && WellFormed(left) && Eval(left, vars).Some?
    requires OrTail(Eval(left, vars).value, ts, vars).Ok?
    ensures var r := OrTail(Eval(left, vars).value, ts, vars);
            WellFormed(e) && Toks(left, 0) + ts == Toks(e, 0) + r.rest && Eval(e, vars) == Some(r.value)
            && Spelled(r.rest)
    decreases |ts|, 5
  {
    if ts[0].kind != OR {
      e := left;
    } else {
      SpelledRest(ts, 1);
      var right := AndTree(ts[1..], vars);
      var rest := ParseAnd(ts[1..], vars).rest;
      var both := Expr.Or(left, right);
      OrToks(left, right, ts, rest);
      e := OrTailTree(both, rest, vars);
    }
  }

  lemma {:induction false} AndTree(ts: seq<Token>, vars: Vars) returns (e: Expr)
    requires Spelled(ts) && ParseAnd(ts, vars).Ok?
    ensures var r := ParseAnd(ts, vars);
            WellFormed(e) && Prec(e) >= 1 && ts == Toks(e, 1) + r.rest && Eval(e, vars) == Some(r.value)
            && Spelled(r.rest)
    decreases |ts|, 4
  {
    var first := NotTree(ts, vars);
    var mid := ParseNot(ts, vars).rest;
    assert Toks(first, 1) == Toks(first, 2);
    e := AndTailTree(first, mid, vars);
  }

  lemma {:induction false} AndTailTree(left: Expr, ts: seq<Token>, vars: Vars) returns (e: Expr)
    requires Spelled(ts) && WellFormed(left) && Prec(left) >= 1 && Eval(left, vars).Some?
    requires AndTail(Eval(left, vars).value, ts, vars).Ok?
    ensures var r := AndTail(Eval(left, vars).value, ts, vars);
            WellFormed(e) && Prec(e) >= 1 && Toks(left, 1) + ts == Toks(e, 1) + r.rest
            && Eval(e, vars) == Some(r.value) && Spelled(r.rest)
    decreases |ts|, 3
  {
    if ts[0].kind != AND {
      e := left;
    } else {
      SpelledRest(ts, 1);
      var right := NotTree(ts[1..], vars);
      var rest := ParseNot(ts[1..], vars).rest;
      var both := Expr.And(left, right);
      AndToks(left, right, ts, rest);
      e := AndTailTree(both, rest, vars);
    }
  }

  lemma {:induction false} NotTree(ts: seq<Token>, vars: Vars) returns (e: Expr)
    requires Spelled(ts) && ParseNot(ts, vars).Ok?
    ensures var r := ParseNot(ts, vars);
            WellFormed(e) && Prec(e) == 2 && ts == Toks(e, 2) + r.rest && Eval(e, vars) == Some(r.value)
            && Spelled(r.rest)
    decreases |ts|, 2
  {
    if ts[0].kind == NOT {
      SpelledRest(ts, 1);
      var inner := NotTree(ts[1..], vars);
      e := Expr.Not(inner);
      assert ts == [Token(NOT, "!")] + ts[1..];
    } else {
      e := ComparisonTree(ts, vars);
    }
  }

  lemma {:induction false} ComparisonTree(ts: seq<Token>, vars: Vars) returns (e: Expr)
    requires Spelled(ts) && ParseComparison(ts, vars).Ok?
    ensures var r := ParseComparison(ts, vars);
            WellFormed(e) && Prec(e) == 2 && ts == Toks(e, 2) + r.rest && Eval(e, vars) == Some(r.value)
            && Spelled(r.rest)
    decreases |ts|, 1
  {
    var a := ValueTree(ts, vars);
    var mid := ParseValue(ts, vars).rest;
    if !IsComparison(mid[0].kind) {
      e := Truthy(a);
    } else {
      SpelledRest(mid, 1);
      var b := ValueTree(mid[1..], vars);
      e := Cmp(mid[0].kind, a, b);
      CompareToks(e, mid, ParseValue(mid[1..], vars).rest);
    }
  }

  lemma CompareToks(e: Expr, mid: seq<Token>, rest: seq<Token>)
    requires e.Cmp? && mid != [] && mid[0] == Token(e.op, OpText(e.op)) && mid[1..] == OperandToks(e.b) + rest
    ensures OperandToks(e.a) + mid == Toks(e, 2) + rest
  {
    assert mid == [mid[0]] + mid[1..];
    ComparisonToks(e, rest);
  }

  lemma {:induction false} ValueTree(ts: seq<Token>, vars: Vars) returns (o: Operand)
    requires Spelled(ts) && ParseValue(ts, vars).Ok?
    ensures var r := ParseValue(ts, vars);
            WellFormedOperand(o) && ts == OperandToks(o) + r.rest && EvalOperand(o, vars) == Some(r.value)
            && Spelled(r.rest)
    decreases |ts|, 0
  {
    SpelledRest(ts, 1);
    assert ts == [ts[0]] + ts[1..];
    if ts[0].kind == NUMBER {
      o := Num(ts[0].text);
    } else if ts[0].kind == IDENT {
      o := Var(ts[0].text);
    } else {
      o := GroupTree(ts, vars);
    }
  }

  lemma {:induction false} GroupTree(ts: seq<Token>, vars: Vars) returns (o: Operand)
    requires Spelled(ts) && ts[0].kind == LPAREN && |ts| > 1 && ParseValue(ts, vars).Ok?
    ensures var r := ParseValue(ts, vars);
            WellFormedOperand(o) && ts == OperandToks(o) + r.rest && EvalOperand(o, vars) == Some(r.value)
            && Spelled(r.rest)
    decreases |ts|, 0, 0
  {
    SpelledRest(ts, 1);
    GroupedValue(ts, vars);
    var inner := OrTree(ts[1..], vars);
    var rest := ParseOr(ts[1..], vars).rest;
    SpelledRest(rest, 1);
    o := Group(inner);
    GroupToks(inner, ts, rest);
  }

  lemma GroupToks(e: Expr, ts: seq<Token>, rest: seq<Token>)
    requires ts != [] && ts[0] == LP && ts[1..] == Toks(e, 0) + rest && rest != [] && rest[0] == RP
    ensures ts == OperandToks(Group(e)) + rest[1..]
  {
    assert ts == [LP] + ts[1..] && rest == [RP] + rest[1..];
  }

  // ----- the language

  ghost predicate Reads(ts: seq<Token>, vars: Vars, e: Expr, v: bool) {
    WellFormed(e) && ts == Toks(e, 0) + [Token(EOF, "")] && Eval(e, vars) == Some(v)
  }

  /** Tokens have a value exactly if they are those of a tree with that value. */
  lemma ParseExactly(ts: seq<Token>, vars: Vars, v: bool)
    requires Spelled(ts)
    ensures Parse(ts, vars) == Some(v) <==> exists e :: Reads(ts, vars, e, v)
  {
    if Parse(ts, vars) == Some(v) {
      var e := OrTree(ts, vars);
      var rest := ParseOr(ts, vars).rest;
      assert |rest| == 1 && rest[0] == Token(EOF, "");
      assert Reads(ts, vars, e, v);
    }
    if e :| Reads(ts, vars, e, v) {
      TokensRoundTrip(e, vars);
    }
  }

  lemma FirstTokenPrintable(s: string)
    requires s != "" && FirstToken(s).Some?
    ensures Printable(FirstToken(s).value)
  {
  }

  lemma SpelledFirst(t: Token, ts: seq<Token>)
    requires Printable(t) && Spelled(ts)
    ensures Spelled([t] + ts)
  {
  }

  lemma {:induction false} LexSpelled(s: string)
    requires Lex(s).Some?
    ensures Spelled(Lex(s).value)
    decreases |s|
  {
    if s != "" {
      if IsSpace(s[0]) {
        LexSpelled(s[1..]);
      } else {
        var t := FirstToken(s).value;
        FirstTokenPrintable(s);
        LexSpelled(s[|t.text|..]);
        SpelledFirst(t, Lex(s[|t.text|..]).value);
      }
    }
  }

  /** A text has a value exactly if it spells, apart from white space, a tree with that value; any other is an error. */
  lemma EvaluateExactly(expr: string, vars: Vars, v: bool)
    ensures Evaluate(expr, vars) == Some(v) <==> Lex(expr).Some? && exists e :: Reads(Lex(expr).value, vars, e, v)
  {
    if Lex(expr).Some? {
      LexSpelled(expr);
      ParseExactly(Lex(expr).value, vars, v);
    }
  }

  // ----- characters

  /** Names start with an ASCII letter or the underscore, and go on with these or digits; by code points. */
  lemma NameCharacters(c: char)
    ensures IsIdentStart(c) <==> 0x61 <= c as int < 0x61 + 26 || 0x41 <= c as int < 0x41 + 26 || c as int == 0x5f
    ensures IsDigit(c) <==> 0x30 <= c as int < 0x30 + 10
    ensures IsIdentChar(c) <==> IsIdentStart(c) || IsDigit(c)
    ensures IsNumberChar(c) <==> IsDigit(c) || c as int == 0x2e
  {
  }

  /** White space as in ECMAScript: the code points of its white space and line terminators. */
  lemma SpaceCharacters(c: char)
    ensures IsSpace(c) <==>
            c as int in {0x9, 0xa, 0xb, 0xc, 0xd, 0x20, 0xa0, 0x1680, 0x2000, 0x2001, 0x2002, 0x2003, 0x2004, 0x2005,
                         0x2006, 0x2007, 0x2008, 0x2009, 0x200a, 0x2028, 0x2029, 0x202f, 0x205f, 0x3000, 0xfeff}
  {
  }

  /** An operator of two characters is read as one, whatever follows. */
  lemma TwoCharacters(rest: string)
    ensures TwoChar("&&" + rest) == Some(AND) && TwoChar("||" + rest) == Some(OR)
    ensures TwoChar(">=" + rest) == Some(GTE) && TwoChar("<=" + rest) == Some(LTE)
    ensures TwoChar("==" + rest) == Some(EQ) && TwoChar("!=" + rest) == Some(NEQ)
  {
    assert ("&&" + rest)[..2] == "&&" && ("||" + rest)[..2] == "||" && (">=" + rest)[..2] == ">=";
    assert ("<=" + rest)[..2] == "<=" && ("==" + rest)[..2] == "==" && ("!=" + rest)[..2] == "!=";
  }

  // ----- nothing is lost between text and tokens

  function Squeezed(s: string): string {
    if s == "" then "" else (if IsSpace(s[0]) then "" else [s[0]]) + Squeezed(s[1..])
  }

  function Texts(ts: seq<Token>): string {
    if ts == [] then "" else ts[0].text + Texts(ts[1..])
  }

  lemma {:induction false} SqueezedConcat(a: string, b: string)
    requires forall i :: 0 <= i < |a| ==> !IsSpace(a[i])
    ensures Squeezed(a + b) == a + Squeezed(b)
  {
    if a == "" {
      assert a + b == b;
    } else {
      assert (a + b)[1..] == a[1..] + b;
      SqueezedConcat(a[1..], b);
    }
  }

  lemma FirstTokenSolid(s: string)
    requires s != "" && FirstToken(s).Some?
    ensures var t := FirstToken(s).value;
            s == t.text + s[|t.text|..] && forall i :: 0 <= i < |t.text| ==> !IsSpace(t.text[i])
  {
  }

  /** The texts of the tokens, one after the other, are the text without its white space. */
  lemma {:induction false} LexConserves(s: string)
    requires Lex(s).Some?
    ensures Texts(Lex(s).value) == Squeezed(s)
    decreases |s|
  {
    if s == "" {
      assert [Token(EOF, "")][1..] == [];
    } else if IsSpace(s[0]) {
      LexConserves(s[1..]);
    } else {
      var t := FirstToken(s).value;
      FirstTokenSolid(s);
      LexConserves(s[|t.text|..]);
      SqueezedConcat(t.text, s[|t.text|..]);
      assert Lex(s).value[1..] == Lex(s[|t.text|..]).value;
    }
  }

  // ----- numerals

  ghost predicate AllDigits(s: string) { forall i :: 0 <= i < |s| ==> '0' <= s[i] <= '9' }

  lemma NextDigit(s: string, c: char)
    requires AllDigits(s) && IsDigit(c)
    ensures AllDigits(s + [c]) && DecimalValue(s + [c]) == DecimalValue(s) * 10 + DigitValue(c)
  {
    assert (s + [c])[..|s|] == s;
  }

  lemma {:induction false} ReadDigits(done: string, s: string, seenPoint: bool, places: nat)
    requires AllDigits(done) && AllDigits(s)
    ensures ReadNumeral(s, seenPoint, Numeral(DecimalValue(done), places))
            == Some(Numeral(DecimalValue(done + s), if seenPoint then places + |s| else places))
    decreases |s|
  {
    if s == "" {
      assert done + s == done;
    } else {
      var next := done + [s[0]];
      NextDigit(done, s[0]);
      assert done + s == next + s[1..];
      ReadDigits(next, s[1..], seenPoint, if seenPoint then places + 1 else places);
    }
  }

  lemma {:induction false} ReadUpToPoint(done: string, a: string, b: string)
    requires AllDigits(done) && AllDigits(a)
    ensures ReadNumeral(a + "." + b, false, Numeral(DecimalValue(done), 0))
            == ReadNumeral(b, true, Numeral(DecimalValue(done + a), 0))
    decreases |a|
  {
    var s := a + "." + b;
    if a == "" {
      assert s[0] == '.' && s[1..] == b && done + a == done;
    } else {
      var next := done + [a[0]];
      NextDigit(done, a[0]);
      assert done + a == next + a[1..];
      assert s[0] == a[0] && s[1..] == a[1..] + "." + b;
      ReadUpToPoint(next, a[1..], b);
    }
  }

  /** Digits stand for their decimal value; after a point each counts for a tenth of the one before. */
  lemma NumeralMeans(a: string, b: string, vars: Vars)
    requires AllDigits(a) && AllDigits(b)
    ensures Literal(a, vars) == vars.nearest(Numeral(DecimalValue(a), 0))
    ensures Literal(a + "." + b, vars) == vars.nearest(Numeral(DecimalValue(a + b), |b|))
  {
    assert "" + a == a && DecimalValue("") == 0;
    ReadDigits("", a, false, 0);
    ReadUpToPoint("", a, b);
    ReadDigits(a, b, true, 0);
  }

  /** A second point makes it no number. */
  lemma TwoPoints(a: string, b: string, c: string, vars: Vars)
    requires AllDigits(a) && AllDigits(b)
    ensures Literal(a + "." + (b + "." + c), vars) == None
  {
    ReadUpToPoint("", a, b + "." + c);
    SecondPoint(b, c, Numeral(DecimalValue("" + a), 0));
  }

  lemma {:induction false} SecondPoint(b: string, c: string, n: Numeral)
    requires AllDigits(b)
    ensures ReadNumeral(b + "." + c, true, n) == None
    decreases |b|
  {
    var s := b + "." + c;
    if b != "" {
      assert s[0] == b[0] && s[1..] == b[1..] + "." + c;
      SecondPoint(b[1..], c, Numeral(n.digits * 10 + DigitValue(b[0]), n.places + 1));
    }
  }
}
