/** The policy expression language: tokens, the recursive descent, and what it computes. */
module PolicyExpr {
  import opened Options

  datatype Kind = NUMBER | IDENT | AND | OR | NOT | GTE | LTE | GT | LT | EQ | NEQ | LPAREN | RPAREN | EOF

  datatype Token = Token(kind: Kind, text: string)

  /** A decimal numeral: its digits as one number, and how many of them come after the point. */
  datatype Numeral = Numeral(digits: nat, places: nat)

  /**
   * The variables in scope, and what a numeral is in the source's arithmetic: its nearest double, if that is finite.
   */
  datatype Vars = Vars(values: map<string, real>, nearest: Numeral -> Option<real>)

  predicate IsComparison(k: Kind) { k == GT || k == LT || k == GTE || k == LTE || k == EQ || k == NEQ }

  function Compare(k: Kind, a: real, b: real): bool
    requires IsComparison(k)
  {
    match k
    case GT => a > b
    case LT => a < b
    case GTE => a >= b
    case LTE => a <= b
    case EQ => a == b
    case _ => a != b
  }

  // ----- numerals

  predicate IsDigit(c: char) { '0' <= c <= '9' }

  function DigitValue(c: char): nat
    requires IsDigit(c)
  {
    c as int - '0' as int
  }

  /** Digits with at most one point among them, read on from `n`; more points are not a number. */
  function ReadNumeral(s: string, seenPoint: bool, n: Numeral): Option<Numeral>
    decreases |s|
  {
    if s == "" then Some(n)
    else if s[0] == '.' then (if seenPoint then None else ReadNumeral(s[1..], true, n))
    else if !IsDigit(s[0]) then None
    else ReadNumeral(s[1..], seenPoint,
                     Numeral(n.digits * 10 + DigitValue(s[0]), n.places + (if seenPoint then 1 else 0)))
  }

  function Literal(text: string, vars: Vars): Option<real> {
    match ReadNumeral(text, false, Numeral(0, 0))
    case None => None
    case Some(n) => vars.nearest(n)
  }

  // ----- the descent, on the remaining tokens

  datatype Parsed<T> = Ok(value: T, rest: seq<Token>) | Fail

  predicate EndsInEof(ts: seq<Token>) { ts != [] && ts[|ts| - 1].kind == EOF }

  /** Tokens were consumed, but never the EOF at the end. */
  predicate Consumed<T>(ts: seq<Token>, r: Parsed<T>) {
    r.Ok? ==> |r.rest| < |ts| && EndsInEof(r.rest)
  }

  function ParseOr(ts: seq<Token>, vars: Vars): (r: Parsed<bool>)
    requires EndsInEof(ts)
    ensures Consumed(ts, r)
    decreases |ts|, 5
  {
    match ParseAnd(ts, vars)
    case Fail => Fail
    case Ok(left, rest) => OrTail(left, rest, vars)
  }

  function OrTail(left: bool, ts: seq<Token>, vars: Vars): (r: Parsed<bool>)
    requires EndsInEof(ts)
    ensures r.Ok? ==> |r.rest| <= |ts| && EndsInEof(r.rest)
    decreases |ts|, 5
  {
    if ts[0].kind != OR then Ok(left, ts)
    else match ParseAnd(ts[1..], vars)
      case Fail => Fail
      case Ok(right, rest) => OrTail(left || right, rest, vars)
  }

  function ParseAnd(ts: seq<Token>, vars: Vars): (r: Parsed<bool>)
    requires EndsInEof(ts)
    ensures Consumed(ts, r)
    decreases |ts|, 4
  {
    match ParseNot(ts, vars)
    case Fail => Fail
    case Ok(left, rest) => AndTail(left, rest, vars)
  }

  function AndTail(left: bool, ts: seq<Token>, vars: Vars): (r: Parsed<bool>)
    requires EndsInEof(ts)
    ensures r.Ok? ==> |r.rest| <= |ts| && EndsInEof(r.rest)
    decreases |ts|, 4
  {
    if ts[0].kind != AND then Ok(left, ts)
    else match ParseNot(ts[1..], vars)
      case Fail => Fail
      case Ok(right, rest) => AndTail(left && right, rest, vars)
  }

  function ParseNot(ts: seq<Token>, vars: Vars): (r: Parsed<bool>)
    requires EndsInEof(ts)
    ensures Consumed(ts, r)
    decreases |ts|, 3
  {
    if ts[0].kind == NOT then
      match ParseNot(ts[1..], vars)
      case Fail => Fail
      case Ok(v, rest) => Ok(!v, rest)
    else ParseComparison(ts, vars)
  }

  function ParseComparison(ts: seq<Token>, vars: Vars): (r: Parsed<bool>)
    requires EndsInEof(ts)
    ensures Consumed(ts, r)
    decreases |ts|, 2
  {
    match ParseValue(ts, vars)
    case Fail => Fail
    case Ok(left, rest) =>
      if !IsComparison(rest[0].kind) then Ok(left != 0.0, rest)
      else match ParseValue(rest[1..], vars)
        case Fail => Fail
        case Ok(right, rest') => Ok(Compare(rest[0].kind, left, right), rest')
  }

  function ParseValue(ts: seq<Token>, vars: Vars): (r: Parsed<real>)
    requires EndsInEof(ts)
    ensures Consumed(ts, r)
    decreases |ts|, 1
  {
    match ts[0].kind
    case NUMBER =>
      (match Literal(ts[0].text, vars)
       case None => Fail
       case Some(x) => Ok(x, ts[1..]))
    case IDENT => if ts[0].text in vars.values then Ok(vars.values[ts[0].text], ts[1..]) else Fail
    case LPAREN =>
      (match ParseOr(ts[1..], vars)
       case Fail => Fail
       case Ok(v, rest) => if rest[0].kind == RPAREN then Ok(if v then 1.0 else 0.0, rest[1..]) else Fail)
    case _ => Fail
  }

  /** A value is compared with the next one, or stands for its truth. */
  lemma BareOrCompared(ts: seq<Token>, rest: seq<Token>, x: real, vars: Vars)
    requires EndsInEof(ts) && ParseValue(ts, vars) == Ok(x, rest)
    ensures EndsInEof(rest)
    ensures !IsComparison(rest[0].kind) ==> ParseComparison(ts, vars) == Ok(x != 0.0, rest)
    ensures IsComparison(rest[0].kind) ==>
              |rest| > 1 && ParseComparison(ts, vars) == match ParseValue(rest[1..], vars)
                                                         case Fail => Fail
                                                         case Ok(y, rest') => Ok(Compare(rest[0].kind, x, y), rest')
  {
  }

  /** The whole input is one expression. */
  function Parse(ts: seq<Token>, vars: Vars): Option<bool>
    requires EndsInEof(ts)
  {
    match ParseOr(ts, vars)
    case Fail => None
    case Ok(v, rest) => if rest[0].kind == EOF then Some(v) else None
  }

  // ----- the parser object; a method that throws returns None

  ghost predicate Agrees<T>(r: Option<T>, rest: seq<Token>, spec: Parsed<T>) {
    match spec
    case Fail => r.None?
    case Ok(v, left) => r == Some(v) && rest == left
  }

  class Parser {
    const tokens: seq<Token>
    const vars: Vars
    var pos: nat

    ghost predicate Valid()
      reads this
    {
      EndsInEof(tokens) && pos < |tokens|
    }

    constructor (tokens: seq<Token>, vars: Vars)
      requires EndsInEof(tokens)
      ensures Valid() && this.tokens == tokens && this.vars == vars && pos == 0
    {
      this.tokens, this.vars, pos := tokens, vars, 0;
    }

    function Peek(): Token
      requires Valid()
      reads this
    {
      tokens[pos]
    }

    method ParseAll() returns (r: Option<bool>)
      requires Valid() && pos == 0
      modifies this
      ensures Valid() && r == Parse(tokens, vars)
    {
      assert tokens[0..] == tokens;
      r := Or();
      if r.Some? && Peek().kind != EOF {
        r := None;
      }
    }

    method Or() returns (r: Option<bool>)
      requires Valid()
      modifies this
      ensures Valid() && pos >= old(pos) && Agrees(r, tokens[pos..], ParseOr(tokens[old(pos)..], vars))
      ensures r.Some? ==> pos > old(pos)
      decreases |tokens| - pos, 5
    {
      r := And();
      if r.Some? {
        r := MoreOr(r.value);
      }
    }

    /** The loop over further operands. */
    method MoreOr(first: bool) returns (r: Option<bool>)
      requires Valid()
      modifies this
      ensures Valid() && pos >= old(pos) && Agrees(r, tokens[pos..], OrTail(first, tokens[old(pos)..], vars))
      decreases |tokens| - pos, 5
    {
      ghost var whole := OrTail(first, tokens[pos..], vars);
      var left := first;
      while Peek().kind == OR
        invariant Valid() && pos >= old(pos) && whole == OrTail(left, tokens[pos..], vars)
        decreases |tokens| - pos
      {
        ghost var ts := tokens[pos..];
        assert ts[0].kind == OR && ts[1..] == tokens[pos + 1..];
        pos := pos + 1;
        var right := And();
        if right.None? { return None; }
        left := left || right.value;
      }
      return Some(left);
    }

    method And() returns (r: Option<bool>)
      requires Valid()
      modifies this
      ensures Valid() && pos >= old(pos) && Agrees(r, tokens[pos..], ParseAnd(tokens[old(pos)..], vars))
      ensures r.Some? ==> pos > old(pos)
      decreases |tokens| - pos, 4
    {
      r := Not();
      if r.Some? {
        r := MoreAnd(r.value);
      }
    }

    /** The loop over further operands. */
    method MoreAnd(first: bool) returns (r: Option<bool>)
      requires Valid()
      modifies this
      ensures Valid() && pos >= old(pos) && Agrees(r, tokens[pos..], AndTail(first, tokens[old(pos)..], vars))
      decreases |tokens| - pos, 4
    {
      ghost var whole := AndTail(first, tokens[pos..], vars);
      var left := first;
      while Peek().kind == AND
        invariant Valid() && pos >= old(pos) && whole == AndTail(left, tokens[pos..], vars)
        decreases |tokens| - pos
      {
        ghost var ts := tokens[pos..];
        assert ts[0].kind == AND && ts[1..] == tokens[pos + 1..];
        pos := pos + 1;
        var right := Not();
        if right.None? { return None; }
        left := left && right.value;
      }
      return Some(left);
    }

    method Not() returns (r: Option<bool>)
      requires Valid()
      modifies this
      ensures Valid() && pos >= old(pos) && Agrees(r, tokens[pos..], ParseNot(tokens[old(pos)..], vars))
      ensures r.Some? ==> pos > old(pos)
      decreases |tokens| - pos, 3
    {
      if Peek().kind == NOT {
        assert tokens[pos..][1..] == tokens[pos + 1..];
        pos := pos + 1;
        var inner := Not();
        return if inner.Some? then Some(!inner.value) else None;
      }
      r := Comparison();
    }

    method Comparison() returns (r: Option<bool>)
      requires Valid()
      modifies this
      ensures Valid() && pos >= old(pos) && Agrees(r, tokens[pos..], ParseComparison(tokens[old(pos)..], vars))
      ensures r.Some? ==> pos > old(pos)
      decreases |tokens| - pos, 2
    {
      ghost var ts := tokens[pos..];
      var left := Operand();
      if left.None? { return None; }
      r := Compared(left.value, ts);
    }

    /** The value just read is compared with the next one, or stands for its truth. */
    method Compared(left: real, ghost ts: seq<Token>) returns (r: Option<bool>)
      requires Valid() && EndsInEof(ts) && ParseValue(ts, vars) == Ok(left, tokens[pos..])
      modifies this
      ensures Valid() && pos >= old(pos) && Agrees(r, tokens[pos..], ParseComparison(ts, vars))
      decreases |tokens| - pos, 2
    {
      ghost var rest := tokens[pos..];
      BareOrCompared(ts, rest, left, vars);
      var op := Peek().kind;
      assert rest[0].kind == op;
      if !IsComparison(op) { return Some(left != 0.0); }
      assert rest[1..] == tokens[pos + 1..];
      pos := pos + 1;
      var right := Operand();
      return if right.Some? then Some(Compare(op, left, right.value)) else None;
    }

    method Operand() returns (r: Option<real>)
      requires Valid()
      modifies this
      ensures Valid() && pos >= old(pos) && Agrees(r, tokens[pos..], ParseValue(tokens[old(pos)..], vars))
      ensures r.Some? ==> pos > old(pos)
      decreases |tokens| - pos, 1
    {
      var tok := Peek();
      assert tokens[pos..][0] == tok && (pos + 1 < |tokens| ==> tokens[pos..][1..] == tokens[pos + 1..]);
      if tok.kind == NUMBER {
        pos := pos + 1;
        return Literal(tok.text, vars);
      }
      if tok.kind == IDENT {
        pos := pos + 1;
        return if tok.text in vars.values then Some(vars.values[tok.text]) else None;
      }
      if tok.kind == LPAREN {
        pos := pos + 1;
        var inner := Or();
        if inner.None? { return None; }
        if Peek().kind != RPAREN { return None; }
        assert tokens[pos..][1..] == tokens[pos + 1..];
        pos := pos + 1;
        return Some(if inner.value then 1.0 else 0.0);
      }
      return None;
    }
  }
}
