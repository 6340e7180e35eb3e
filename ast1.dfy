/**
 * The first syntax tree: a recursive-descent parser over the token stream
 * of the lexer. The stream is a sequence of lexemes and a cursor position;
 * every parsing function takes the position of its first token and returns
 * the parsed value together with the position after the tokens it used.
 * Where the parser panics, the model returns an error.
 */
module Ast1 {
  import opened Wrappers
  import L = Lexer

  type Span = L.Span
  type Lexeme = L.Lexeme

  datatype Expr =
    | Binop(lhs: Expr, op: Span, rhs: Expr)
    | Unop(expr: Expr, op: Span)
    | Paren(l: Span, expr: Expr, r: Span)
    | Ident(span: Span)

  datatype AssignTarget =
    | DiscardTarget(span: Span)
    | ReturnTarget(span: Span)
    | GotoTarget(span: Span)
    | IdentTarget(span: Span)

  /** One name of an operator chain, with the span of its `then` if it has one. */
  datatype Op = Op(ident: Span, thenSpan: Option<Span>)

  datatype FnParams = FnParams(p1: Span, andSpan: Option<Span>, p2: Option<Span>)

  datatype Fn = Fn(withSpan: Span, params: FnParams, ops: seq<Op>)

  datatype AssignValue =
    | Ops(ops: seq<Op>)
    | FnValue(func: Fn)
    | NumberValue(span: Span, n: nat)
    | NotHereValue(span: Span)

  datatype Behaviour =
    | StillIn(stillIn: Span, ident: Span, behaviour: Behaviour)
    | Cond(ifSpan: Span, cond: Span, behaviour: Behaviour)
    | Assign(target: AssignTarget, isSpan: Span, value: AssignValue)

  datatype Stmt = Stmt(line: nat, expr: Option<Expr>, sep: Span, behaviour: Behaviour)

  /** Why parsing stopped: the input ran out, or the token at `at` was not allowed there. */
  datatype ParseError = EndOfInput | UnexpectedToken(at: nat)

  /** A parsed value and the cursor position after it. */
  datatype Parsed<T> = Parsed(value: T, next: nat)

  type PResult<T> = Result<Parsed<T>, ParseError>

  /** `monch(k)`: consume one token of kind `k` and yield its span; anything else fails. */
  function Monch(ts: seq<Lexeme>, pos: nat, k: L.Token): (r: PResult<Span>)
    ensures r.Ok? <==> pos < |ts| && ts[pos].token == k
    ensures r.Ok? ==> r.value.next == pos + 1 && L.Lexeme(k, r.value.value) == ts[pos]
  {
    if pos >= |ts| then Err(EndOfInput)
    else if ts[pos].token != k then Err(UnexpectedToken(pos))
    else Ok(Parsed(ts[pos].span, pos + 1))
  }

  // ---------------------------------------------------------------------
  // Expressions

  /**
   * `parse_expr`: an identifier or a parenthesised expression, followed by
   * whatever operators `parse_expr_inner` finds after it.
   */
  function ParseExpr(ts: seq<Lexeme>, pos: nat): (r: PResult<Expr>)
    ensures r.Ok? ==> pos < r.value.next <= |ts|
    decreases |ts| - pos, 1
  {
    if pos >= |ts| then Err(EndOfInput)
    else if ts[pos].token.Identifier? then ParseExprInner(Ident(ts[pos].span), ts, pos + 1)
    else if ts[pos].token.ParenLeft? then
      var e :- ParseExpr(ts, pos + 1);
      var r :- Monch(ts, e.next, L.ParenRight);
      ParseExprInner(Paren(ts[pos].span, e.value, r.value), ts, r.next)
    else Err(UnexpectedToken(pos))
  }

  /**
   * `parse_expr_inner`: after `acc`, a `.` followed by `.` applies a unary
   * operator and keeps going, a `.` followed by `)` or `//` applies a last
   * unary operator, and any other `.` is a binary operator whose right-hand
   * side is the whole rest of the expression. Without a `.`, `acc` is the
   * result. The token after a `.` must exist, as must the token looked at.
   */
  function ParseExprInner(acc: Expr, ts: seq<Lexeme>, pos: nat): (r: PResult<Expr>)
    ensures r.Ok? ==> pos <= r.value.next <= |ts|
    decreases |ts| - pos, 0
  {
    if pos >= |ts| then Err(EndOfInput)
    else if !ts[pos].token.Operator? then Ok(Parsed(acc, pos))
    else if pos + 1 >= |ts| then Err(EndOfInput)
    else
      var op := ts[pos].span;
      var t := ts[pos + 1].token;
      if t.Operator? then ParseExprInner(Unop(acc, op), ts, pos + 1)
      else if t.ParenRight? || t.BehaviourStart? then Ok(Parsed(Unop(acc, op), pos + 1))
      else
        var rhs :- ParseExpr(ts, pos + 1);
        Ok(Parsed(Binop(acc, op, rhs.value), rhs.next))
  }

  /** The tokens an expression is written with. */
  function Unparse(e: Expr): (u: seq<Lexeme>)
    ensures |u| > 0 && (u[0].token.Identifier? || u[0].token.ParenLeft?)
  {
    match e
    case Binop(lhs, op, rhs) => Unparse(lhs) + [L.Lexeme(L.Operator, op)] + Unparse(rhs)
    case Unop(x, op) => Unparse(x) + [L.Lexeme(L.Operator, op)]
    case Paren(l, x, r) => [L.Lexeme(L.ParenLeft, l)] + Unparse(x) + [L.Lexeme(L.ParenRight, r)]
    case Ident(s) => [L.Lexeme(L.Identifier, s)]
  }

  /**
   * An operand: an identifier or a parenthesised expression with unary
   * operators applied to it, but no binary operator outside parentheses.
   */
  predicate Operand(e: Expr)
    decreases e, 0
  {
    match e
    case Binop(_, _, _) => false
    case Unop(x, _) => Operand(x)
    case Paren(_, x, _) => RightNested(x)
    case Ident(_) => true
  }

  /** The shapes the parser builds: binary chains nest to the right, over operands. */
  predicate RightNested(e: Expr)
    decreases e, 1
  {
    match e
    case Binop(lhs, _, rhs) => Operand(lhs) && RightNested(rhs)
    case _ => Operand(e)
  }

  /** Whether a token may follow an expression in the grammar: `)` or `//`. */
  predicate Closes(t: L.Token) {
    t.ParenRight? || t.BehaviourStart?
  }

  /** The parsed expression is right-nested and is written by exactly the tokens consumed. */
  lemma {:induction false} ParseExprSound(ts: seq<Lexeme>, pos: nat)
    ensures var r := ParseExpr(ts, pos);
      r.Ok? ==> ts[pos..r.value.next] == Unparse(r.value.value) && RightNested(r.value.value)
    decreases |ts| - pos, 1, 1
  {
    var r := ParseExpr(ts, pos);
    if r.Ok? {
      if ts[pos].token.Identifier? {
        ExprIdent(ts, pos);
        ParseExprInnerSound(Ident(ts[pos].span), ts, pos + 1);
        SliceAround(ts, pos, pos, r.value.next);
      } else {
        ParenSound(ts, pos);
      }
    }
  }

  /** A parenthesised expression, and the operators after it. */
  lemma {:induction false} ParenSound(ts: seq<Lexeme>, pos: nat)
    requires ParseExpr(ts, pos).Ok? && ts[pos].token.ParenLeft?
    ensures var r := ParseExpr(ts, pos).value;
      ts[pos..r.next] == Unparse(r.value) && RightNested(r.value)
    decreases |ts| - pos, 1, 0
  {
    var e := ParenInside(ts, pos);
    ParseExprSound(ts, pos + 1);
    var p := Paren(ts[pos].span, e.value, ts[e.next].span);
    ExprParen(ts, pos, e.value, e.next);
    var r := ParseExprInner(p, ts, e.next + 1).value;
    ParseExprInnerSound(p, ts, e.next + 1);
    assert ts[pos] == L.Lexeme(L.ParenLeft, ts[pos].span);
    assert ts[e.next] == L.Lexeme(L.ParenRight, ts[e.next].span);
    SliceParts(ts, pos, e.next, r.next);
  }

  /** A slice split at its first token and at the token at `k`. */
  lemma {:induction false} SliceParts(ts: seq<Lexeme>, pos: nat, k: nat, m: nat)
    requires pos < k < m <= |ts|
    ensures ts[pos..m] == [ts[pos]] + ts[pos + 1..k] + [ts[k]] + ts[k + 1..m]
  {
    SliceAround(ts, pos, pos, k);
    SliceAround(ts, pos, k, m);
  }

  /** A parsed parenthesised expression has an inner expression followed by `)`. */
  lemma {:induction false} ParenInside(ts: seq<Lexeme>, pos: nat) returns (e: Parsed<Expr>)
    requires ParseExpr(ts, pos).Ok? && ts[pos].token.ParenLeft?
    ensures ParseExpr(ts, pos + 1) == Ok(e)
    ensures e.next < |ts| && ts[e.next].token.ParenRight?
  {
    e := ParseExpr(ts, pos + 1).value;
  }

  /** A slice is its part before `k`, the token at `k`, then its part after `k`. */
  lemma {:induction false} SliceAround(ts: seq<Lexeme>, i: nat, k: nat, m: nat)
    requires i <= k < m <= |ts|
    ensures ts[i..m] == ts[i..k] + [ts[k]] + ts[k + 1..m]
  {
  }

  /** `parse_expr_inner` only appends operators and right-hand sides to `acc`. */
  lemma {:induction false} ParseExprInnerSound(acc: Expr, ts: seq<Lexeme>, pos: nat)
    requires Operand(acc)
    ensures var r := ParseExprInner(acc, ts, pos);
      r.Ok? ==>
        Unparse(r.value.value) == Unparse(acc) + ts[pos..r.value.next] && RightNested(r.value.value)
    decreases |ts| - pos, 0, 1
  {
    if pos < |ts| && !ts[pos].token.Operator? {
      InnerStops(acc, ts, pos);
    } else if pos + 1 < |ts| && ts[pos].token.Operator? {
      if ts[pos + 1].token.Operator? {
        UnaryThenMoreSound(acc, ts, pos);
      } else if Closes(ts[pos + 1].token) {
        InnerUnaryLast(acc, ts, pos);
        SliceAround(ts, pos, pos, pos + 1);
      } else {
        BinarySound(acc, ts, pos);
      }
    }
  }

  /** A unary `.` followed by more operators. */
  lemma {:induction false} UnaryThenMoreSound(acc: Expr, ts: seq<Lexeme>, pos: nat)
    requires Operand(acc)
    requires pos + 1 < |ts| && ts[pos].token.Operator? && ts[pos + 1].token.Operator?
    ensures var r := ParseExprInner(acc, ts, pos);
      r.Ok? ==>
        Unparse(r.value.value) == Unparse(acc) + ts[pos..r.value.next] && RightNested(r.value.value)
    decreases |ts| - pos, 0, 0
  {
    var op := ts[pos].span;
    assert ts[pos] == L.Lexeme(L.Operator, op);
    InnerUnaryThenMore(acc, ts, pos);
    var r := ParseExprInner(Unop(acc, op), ts, pos + 1);
    ParseExprInnerSound(Unop(acc, op), ts, pos + 1);
    if r.Ok? {
      SliceAround(ts, pos, pos, r.value.next);
    }
  }

  /** A binary `.`: the right-hand side is the rest of the expression. */
  lemma {:induction false} BinarySound(acc: Expr, ts: seq<Lexeme>, pos: nat)
    requires Operand(acc)
    requires pos + 1 < |ts| && ts[pos].token.Operator?
    requires !ts[pos + 1].token.Operator? && !Closes(ts[pos + 1].token)
    ensures var r := ParseExprInner(acc, ts, pos);
      r.Ok? ==>
        Unparse(r.value.value) == Unparse(acc) + ts[pos..r.value.next] && RightNested(r.value.value)
    decreases |ts| - pos, 0, 0
  {
    if ParseExprInner(acc, ts, pos).Ok? {
      assert ts[pos] == L.Lexeme(L.Operator, ts[pos].span);
      var rhs := BinaryInside(acc, ts, pos);
      ParseExprSound(ts, pos + 1);
      SliceAround(ts, pos, pos, rhs.next);
    }
  }

  /** A `.` that is neither unary form reads the rest of the expression as its right-hand side. */
  lemma {:induction false} BinaryInside(acc: Expr, ts: seq<Lexeme>, pos: nat) returns (rhs: Parsed<Expr>)
    requires ParseExprInner(acc, ts, pos).Ok?
    requires pos + 1 < |ts| && ts[pos].token.Operator?
    requires !ts[pos + 1].token.Operator? && !Closes(ts[pos + 1].token)
    ensures ParseExpr(ts, pos + 1) == Ok(rhs)
    ensures ParseExprInner(acc, ts, pos) == Ok(Parsed(Binop(acc, ts[pos].span, rhs.value), rhs.next))
  {
    rhs := ParseExpr(ts, pos + 1).value;
  }

  /** `ops` applied to `base` as unary operators, innermost first. */
  function Unops(base: Expr, ops: seq<Span>): (e: Expr)
    ensures Operand(base) ==> Operand(e)
    decreases |ops|
  {
    if |ops| == 0 then base else Unops(Unop(base, ops[0]), ops[1..])
  }

  /** The `.` tokens of a sequence of operator spans. */
  function Dots(ops: seq<Span>): (u: seq<Lexeme>)
    ensures |u| == |ops|
    ensures forall i :: 0 <= i < |ops| ==> u[i] == L.Lexeme(L.Operator, ops[i])
  {
    if |ops| == 0 then [] else [L.Lexeme(L.Operator, ops[0])] + Dots(ops[1..])
  }

  /** The innermost identifier or parenthesis of an operand. */
  function Head(e: Expr): (h: Expr)
    ensures h.Ident? || h.Paren? || h.Binop?
  {
    match e
    case Unop(x, _) => Head(x)
    case _ => e
  }

  /** The unary operators applied to an operand's head, innermost first. */
  function UnarySpans(e: Expr): seq<Span> {
    match e
    case Unop(x, op) => UnarySpans(x) + [op]
    case _ => []
  }

  lemma {:induction false} UnopsSnoc(base: Expr, ops: seq<Span>, op: Span)
    ensures Unops(base, ops + [op]) == Unop(Unops(base, ops), op)
    decreases |ops|
  {
    if |ops| > 0 {
      assert (ops + [op])[1..] == ops[1..] + [op];
      UnopsSnoc(Unop(base, ops[0]), ops[1..], op);
    }
  }

  lemma {:induction false} UnparseUnops(base: Expr, ops: seq<Span>)
    ensures Unparse(Unops(base, ops)) == Unparse(base) + Dots(ops)
    decreases |ops|
  {
    if |ops| == 0 {
      assert Unparse(base) + Dots(ops) == Unparse(base);
    } else {
      var u := Unop(base, ops[0]);
      UnparseUnops(u, ops[1..]);
      UnparseUnopStep(base, ops[0], Dots(ops[1..]));
    }
  }

  /** One unary operator moves from the tree into the dots after it. */
  lemma {:induction false} UnparseUnopStep(base: Expr, op: Span, rest: seq<Lexeme>)
    ensures Unparse(Unop(base, op)) + rest == Unparse(base) + ([L.Lexeme(L.Operator, op)] + rest)
  {
  }

  /** Every operand is its head with its unary operators applied. */
  lemma {:induction false} OperandSplit(e: Expr)
    requires Operand(e)
    ensures e == Unops(Head(e), UnarySpans(e))
    ensures Head(e).Ident? || (Head(e).Paren? && RightNested(Head(e).expr))
  {
    if e.Unop? {
      OperandSplit(e.expr);
      UnopsSnoc(Head(e.expr), UnarySpans(e.expr), e.op);
    }
  }

  /** The tokens of `u` sit at `pos` in `ts` and are followed by a closing token. */
  predicate WrittenAt(ts: seq<Lexeme>, pos: nat, u: seq<Lexeme>) {
    pos + |u| < |ts| && ts[pos..pos + |u|] == u && Closes(ts[pos + |u|].token)
  }

  /** Unary operators up to a closing token are read as one chain of `Unop`s. */
  lemma {:induction false} InnerUnops(acc: Expr, ops: seq<Span>, ts: seq<Lexeme>, pos: nat)
    requires WrittenAt(ts, pos, Dots(ops))
    ensures ParseExprInner(acc, ts, pos) == Ok(Parsed(Unops(acc, ops), pos + |ops|))
    decreases |ops|
  {
    assert ts[pos..pos + |ops|][..] == Dots(ops);
    if |ops| > 0 {
      assert ts[pos] == L.Lexeme(L.Operator, ops[0]);
      if |ops| > 1 {
        assert ts[pos + 1..pos + |ops|] == Dots(ops[1..]);
        InnerUnops(Unop(acc, ops[0]), ops[1..], ts, pos + 1);
      }
    }
  }

  // One step of the expression parser each, so that proofs need not unfold it.

  lemma {:induction false} InnerStops(acc: Expr, ts: seq<Lexeme>, pos: nat)
    requires pos < |ts| && !ts[pos].token.Operator?
    ensures ParseExprInner(acc, ts, pos) == Ok(Parsed(acc, pos))
  {
  }

  lemma {:induction false} InnerUnaryThenMore(acc: Expr, ts: seq<Lexeme>, pos: nat)
    requires pos + 1 < |ts| && ts[pos].token.Operator? && ts[pos + 1].token.Operator?
    ensures ParseExprInner(acc, ts, pos) == ParseExprInner(Unop(acc, ts[pos].span), ts, pos + 1)
  {
  }

  lemma {:induction false} InnerUnaryLast(acc: Expr, ts: seq<Lexeme>, pos: nat)
    requires pos + 1 < |ts| && ts[pos].token.Operator? && Closes(ts[pos + 1].token)
    ensures ParseExprInner(acc, ts, pos) == Ok(Parsed(Unop(acc, ts[pos].span), pos + 1))
  {
  }

  lemma {:induction false} InnerBinary(acc: Expr, ts: seq<Lexeme>, pos: nat, rhs: Expr, next: nat)
    requires pos + 1 < |ts| && ts[pos].token.Operator?
    requires ts[pos + 1].token.Identifier? || ts[pos + 1].token.ParenLeft?
    requires ParseExpr(ts, pos + 1) == Ok(Parsed(rhs, next))
    ensures ParseExprInner(acc, ts, pos) == Ok(Parsed(Binop(acc, ts[pos].span, rhs), next))
  {
  }

  lemma {:induction false} ExprIdent(ts: seq<Lexeme>, pos: nat)
    requires pos < |ts| && ts[pos].token.Identifier?
    ensures ParseExpr(ts, pos) == ParseExprInner(Ident(ts[pos].span), ts, pos + 1)
  {
  }

  lemma {:induction false} ExprParen(ts: seq<Lexeme>, pos: nat, x: Expr, next: nat)
    requires pos < |ts| && ts[pos].token.ParenLeft?
    requires ParseExpr(ts, pos + 1) == Ok(Parsed(x, next))
    requires next < |ts| && ts[next].token.ParenRight?
    ensures ParseExpr(ts, pos) == ParseExprInner(Paren(ts[pos].span, x, ts[next].span), ts, next + 1)
  {
  }

  /** A slice holding `a + b` holds `a` and then `b`. */
  lemma {:induction false} SliceSplit(ts: seq<Lexeme>, pos: nat, a: seq<Lexeme>, b: seq<Lexeme>)
    requires pos + |a| + |b| <= |ts| && ts[pos..pos + |a| + |b|] == a + b
    ensures ts[pos..pos + |a|] == a && ts[pos + |a|..pos + |a| + |b|] == b
  {
    assert ts[pos..pos + |a|] == (a + b)[..|a|];
    assert ts[pos + |a|..pos + |a| + |b|] == (a + b)[|a|..];
  }

  /** The slice of `ts` at `pos` spelling `Dots(ops)`, without its first dot. */
  lemma {:induction false} DotsTail(ts: seq<Lexeme>, pos: nat, ops: seq<Span>)
    requires |ops| > 0 && pos + |ops| <= |ts| && ts[pos..pos + |ops|] == Dots(ops)
    ensures ts[pos] == L.Lexeme(L.Operator, ops[0])
    ensures ts[pos + 1..pos + 1 + |ops[1..]|] == Dots(ops[1..])
  {
    assert ts[pos] == ts[pos..pos + |ops|][0];
    assert ts[pos + 1..pos + 1 + |ops[1..]|] == ts[pos..pos + |ops|][1..];
  }

  /** A binary operator after unary ones makes the rest of the expression its right-hand side. */
  lemma {:induction false} InnerBinop(acc: Expr, ops: seq<Span>, op: Span, rhs: Expr, ts: seq<Lexeme>, pos: nat)
    requires RightNested(rhs)
    requires pos + |ops| < |ts| && ts[pos..pos + |ops|] == Dots(ops)
    requires ts[pos + |ops|] == L.Lexeme(L.Operator, op)
    requires WrittenAt(ts, pos + |ops| + 1, Unparse(rhs))
    ensures ParseExprInner(acc, ts, pos)
      == Ok(Parsed(Binop(Unops(acc, ops), op, rhs), pos + |ops| + 1 + |Unparse(rhs)|))
    decreases |Unparse(rhs)|, 4, |ops|, 1
  {
    if |ops| == 0 {
      InnerBinopNow(acc, op, rhs, ts, pos);
    } else {
      InnerBinopLater(acc, ops, op, rhs, ts, pos);
    }
  }

  /** No unary operator left: the `.` is binary and the right side follows. */
  lemma {:induction false} InnerBinopNow(acc: Expr, op: Span, rhs: Expr, ts: seq<Lexeme>, pos: nat)
    requires RightNested(rhs)
    requires pos < |ts| && ts[pos] == L.Lexeme(L.Operator, op)
    requires WrittenAt(ts, pos + 1, Unparse(rhs))
    ensures ParseExprInner(acc, ts, pos) == Ok(Parsed(Binop(acc, op, rhs), pos + 1 + |Unparse(rhs)|))
    decreases |Unparse(rhs)|, 4, 0, 0
  {
    assert ts[pos + 1] == ts[pos + 1..pos + 1 + |Unparse(rhs)|][0];
    ParseExprUnparse(rhs, ts, pos + 1);
    InnerBinary(acc, ts, pos, rhs, pos + 1 + |Unparse(rhs)|);
  }

  /** A unary operator first: it wraps the operand and the loop goes on. */
  lemma {:induction false} InnerBinopLater(acc: Expr, ops: seq<Span>, op: Span, rhs: Expr, ts: seq<Lexeme>, pos: nat)
    requires RightNested(rhs) && |ops| > 0
    requires pos + |ops| < |ts| && ts[pos..pos + |ops|] == Dots(ops)
    requires ts[pos + |ops|] == L.Lexeme(L.Operator, op)
    requires WrittenAt(ts, pos + |ops| + 1, Unparse(rhs))
    ensures ParseExprInner(acc, ts, pos)
      == Ok(Parsed(Binop(Unops(acc, ops), op, rhs), pos + |ops| + 1 + |Unparse(rhs)|))
    decreases |Unparse(rhs)|, 4, |ops|, 0
  {
    DotsTail(ts, pos, ops);
    if |ops| > 1 {
      assert ts[pos + 1] == ts[pos + 1..pos + 1 + |ops[1..]|][0];
    }
    InnerBinop(Unop(acc, ops[0]), ops[1..], op, rhs, ts, pos + 1);
    InnerUnaryThenMore(acc, ts, pos);
  }

  /** The tokens of an operand at `pos`: those of its head, then its unary operators. */
  lemma {:induction false} OperandLayout(e: Expr, ts: seq<Lexeme>, pos: nat) returns (b: Expr, os: seq<Span>)
    requires Operand(e) && pos + |Unparse(e)| <= |ts| && ts[pos..pos + |Unparse(e)|] == Unparse(e)
    ensures b.Ident? || (b.Paren? && RightNested(b.expr))
    ensures e == Unops(b, os) && |Unparse(e)| == |Unparse(b)| + |os|
    ensures ts[pos..pos + |Unparse(b)|] == Unparse(b)
    ensures ts[pos + |Unparse(b)|..pos + |Unparse(e)|] == Dots(os)
  {
    OperandSplit(e);
    b, os := Head(e), UnarySpans(e);
    UnparseUnops(b, os);
    SliceSplit(ts, pos, Unparse(b), Dots(os));
  }

  /** The tokens of a parenthesised expression at `pos`. */
  lemma {:induction false} ParenLayout(b: Expr, ts: seq<Lexeme>, pos: nat)
    requires b.Paren? && pos + |Unparse(b)| <= |ts| && ts[pos..pos + |Unparse(b)|] == Unparse(b)
    ensures ts[pos] == L.Lexeme(L.ParenLeft, b.l)
    ensures WrittenAt(ts, pos + 1, Unparse(b.expr))
    ensures ts[pos + 1 + |Unparse(b.expr)|] == L.Lexeme(L.ParenRight, b.r)
    ensures |Unparse(b)| == |Unparse(b.expr)| + 2
  {
    var x := b.expr;
    SliceSplit(ts, pos, [L.Lexeme(L.ParenLeft, b.l)] + Unparse(x), [L.Lexeme(L.ParenRight, b.r)]);
    SliceSplit(ts, pos, [L.Lexeme(L.ParenLeft, b.l)], Unparse(x));
  }

  /** An identifier or a parenthesised expression written at `pos` is read as itself. */
  lemma {:induction false} HeadParse(b: Expr, ts: seq<Lexeme>, pos: nat)
    requires b.Ident? || (b.Paren? && RightNested(b.expr))
    requires pos + |Unparse(b)| <= |ts| && ts[pos..pos + |Unparse(b)|] == Unparse(b)
    ensures ParseExpr(ts, pos) == ParseExprInner(b, ts, pos + |Unparse(b)|)
    decreases |Unparse(b)|, 0
  {
    if b.Ident? {
      assert ts[pos] == Unparse(b)[0];
      ExprIdent(ts, pos);
    } else {
      ParenLayout(b, ts, pos);
      ParseExprUnparse(b.expr, ts, pos + 1);
      ExprParen(ts, pos, b.expr, pos + 1 + |Unparse(b.expr)|);
    }
  }

  /** The tokens of a binary operation at `pos`: its left side, its `.`, then its right side. */
  lemma {:induction false} BinopLayout(e: Expr, ts: seq<Lexeme>, pos: nat)
    requires e.Binop? && WrittenAt(ts, pos, Unparse(e))
    ensures pos + |Unparse(e.lhs)| < |ts| && ts[pos..pos + |Unparse(e.lhs)|] == Unparse(e.lhs)
    ensures ts[pos + |Unparse(e.lhs)|] == L.Lexeme(L.Operator, e.op)
    ensures WrittenAt(ts, pos + |Unparse(e.lhs)| + 1, Unparse(e.rhs))
    ensures |Unparse(e)| == |Unparse(e.lhs)| + 1 + |Unparse(e.rhs)|
  {
    SplitAround(ts, pos, Unparse(e.lhs), L.Lexeme(L.Operator, e.op), Unparse(e.rhs));
  }

  /** A written-out `a`, one lexeme `o`, then `c`, followed by a closing token. */
  lemma {:induction false} SplitAround(ts: seq<Lexeme>, pos: nat, a: seq<Lexeme>, o: Lexeme, c: seq<Lexeme>)
    requires WrittenAt(ts, pos, a + [o] + c)
    ensures pos + |a| < |ts| && ts[pos..pos + |a|] == a && ts[pos + |a|] == o
    ensures WrittenAt(ts, pos + |a| + 1, c)
  {
    var n := |a|;
    SliceSplit(ts, pos, a, [o] + c);
    SliceSplit(ts, pos + n, [o], c);
    assert ts[pos + n] == ts[pos + n..pos + n + 1][0];
  }

  /** An operand, a `.` and a right-nested expression are read as one binary operation. */
  lemma {:induction false} BinopParse(e: Expr, ts: seq<Lexeme>, pos: nat)
    requires e.Binop? && RightNested(e) && WrittenAt(ts, pos, Unparse(e))
    ensures ParseExpr(ts, pos) == Ok(Parsed(e, pos + |Unparse(e)|))
    decreases |Unparse(e)|, 1
  {
    var b, os, m, k := BinopParts(e, ts, pos);
    HeadThenBinop(b, os, e.op, e.rhs, ts, pos, m, k);
  }

  /** Where the head, the unary operators and the binary `.` of a binary expression lie. */
  lemma {:induction false} BinopParts(e: Expr, ts: seq<Lexeme>, pos: nat) returns (b: Expr, os: seq<Span>, m: nat, k: nat)
    requires e.Binop? && RightNested(e) && WrittenAt(ts, pos, Unparse(e))
    ensures b.Ident? || (b.Paren? && RightNested(b.expr))
    ensures RightNested(e.rhs) && e == Binop(Unops(b, os), e.op, e.rhs)
    ensures m == pos + |Unparse(b)| && k == m + |os| && k + 1 + |Unparse(e.rhs)| == pos + |Unparse(e)|
    ensures k < |ts| && ts[pos..m] == Unparse(b) && ts[m..k] == Dots(os)
    ensures ts[k] == L.Lexeme(L.Operator, e.op)
    ensures WrittenAt(ts, k + 1, Unparse(e.rhs))
  {
    BinopLayout(e, ts, pos);
    b, os := OperandLayout(e.lhs, ts, pos);
    m, k := pos + |Unparse(b)|, pos + |Unparse(e.lhs)|;
  }

  /** An operand's head, its unary operators, a `.` and a right-nested expression. */
  lemma {:induction false} HeadThenBinop(b: Expr, os: seq<Span>, op: Span, rhs: Expr, ts: seq<Lexeme>, pos: nat, m: nat, k: nat)
    requires b.Ident? || (b.Paren? && RightNested(b.expr))
    requires RightNested(rhs)
    requires m == pos + |Unparse(b)| && k == m + |os|
    requires k < |ts| && ts[pos..m] == Unparse(b) && ts[m..k] == Dots(os)
    requires ts[k] == L.Lexeme(L.Operator, op)
    requires WrittenAt(ts, k + 1, Unparse(rhs))
    ensures ParseExpr(ts, pos) == Ok(Parsed(Binop(Unops(b, os), op, rhs), k + 1 + |Unparse(rhs)|))
    decreases |Unparse(b)| + |os| + 1 + |Unparse(rhs)|, 0
  {
    HeadParse(b, ts, pos);
    InnerBinop(b, os, op, rhs, ts, m);
  }

  /** An operand followed by a closing token is read as itself. */
  lemma {:induction false} OperandParse(e: Expr, ts: seq<Lexeme>, pos: nat)
    requires Operand(e) && WrittenAt(ts, pos, Unparse(e))
    ensures ParseExpr(ts, pos) == Ok(Parsed(e, pos + |Unparse(e)|))
    decreases |Unparse(e)|, 2
  {
    var b, os := OperandLayout(e, ts, pos);
    HeadThenUnops(b, os, ts, pos);
  }

  /** An operand's head, then its unary operators up to a closing token. */
  lemma {:induction false} HeadThenUnops(b: Expr, os: seq<Span>, ts: seq<Lexeme>, pos: nat)
    requires b.Ident? || (b.Paren? && RightNested(b.expr))
    requires pos + |Unparse(b)| <= |ts| && ts[pos..pos + |Unparse(b)|] == Unparse(b)
    requires WrittenAt(ts, pos + |Unparse(b)|, Dots(os))
    ensures ParseExpr(ts, pos) == Ok(Parsed(Unops(b, os), pos + |Unparse(b)| + |os|))
    decreases |Unparse(b)| + |os|, 1
  {
    var m := pos + |Unparse(b)|;
    assert ParseExpr(ts, pos) == ParseExprInner(b, ts, m) by { HeadParse(b, ts, pos); }
    assert ParseExprInner(b, ts, m) == Ok(Parsed(Unops(b, os), m + |os|)) by { InnerUnops(b, os, ts, m); }
  }

  /**
   * Reading back: the tokens of any right-nested expression, followed by
   * `)` or `//`, parse to that same expression and are all consumed.
   */
  lemma {:induction false} ParseExprUnparse(e: Expr, ts: seq<Lexeme>, pos: nat)
    requires RightNested(e) && WrittenAt(ts, pos, Unparse(e))
    ensures ParseExpr(ts, pos) == Ok(Parsed(e, pos + |Unparse(e)|))
    decreases |Unparse(e)|, 3
  {
    if e.Binop? {
      BinopParse(e, ts, pos);
    } else {
      OperandParse(e, ts, pos);
    }
  }

  // ---------------------------------------------------------------------
  // Operator chains, functions, values and behaviours

  /**
   * `parse_ops`: names joined by `then`. The chain ends after a name with
   * no `then` (the token after it is not consumed), at a `Newline` (which
   * is consumed) or at the end of the input; any other token fails.
   */
  function OpsChain(ts: seq<Lexeme>, pos: nat): (r: PResult<seq<Op>>)
    ensures r.Ok? ==> pos <= r.value.next && (pos <= |ts| ==> r.value.next <= |ts|)
    ensures r.Ok? && pos < |ts| ==> pos < r.value.next
    decreases |ts| - pos
  {
    if pos >= |ts| then Ok(Parsed([], pos))
    else if ts[pos].token.Newline? then Ok(Parsed([], pos + 1))
    else if !ts[pos].token.Identifier? then Err(UnexpectedToken(pos))
    else if pos + 1 < |ts| && ts[pos + 1].token.Then? then
      var rest :- OpsChain(ts, pos + 2);
      Ok(Parsed([Op(ts[pos].span, Some(ts[pos + 1].span))] + rest.value, rest.next))
    else Ok(Parsed([Op(ts[pos].span, None)], pos + 1))
  }

  /** `ops` in front of the chain of a successful result; a failure stays as it is. */
  function Prepend(ops: seq<Op>, r: PResult<seq<Op>>): (q: PResult<seq<Op>>)
    ensures q.Ok? <==> r.Ok?
    ensures q.Ok? ==> q.value.next == r.value.next && |q.value.value| == |ops| + |r.value.value|
    ensures q.Ok? ==> q.value.value[..|ops|] == ops && q.value.value[|ops|..] == r.value.value
  {
    if r.Ok? then Ok(Parsed(ops + r.value.value, r.value.next)) else r
  }

  lemma {:induction false} PrependTwice(a: seq<Op>, b: seq<Op>, r: PResult<seq<Op>>)
    ensures Prepend(a, Prepend(b, r)) == Prepend(a + b, r)
  {
    if r.Ok? {
      assert a + (b + r.value.value) == (a + b) + r.value.value;
    }
  }

  /** `parse_ops` as the loop it is, pushing each op onto a growing list. */
  method ParseOps(ts: seq<Lexeme>, pos: nat) returns (r: PResult<seq<Op>>)
    ensures r == OpsChain(ts, pos)
  {
    var ops: seq<Op> := [];
    var p := pos;
    while p < |ts|
      invariant pos <= p && (p <= |ts| || p == pos)
      invariant OpsChain(ts, pos) == Prepend(ops, OpsChain(ts, p))
      decreases |ts| - p
    {
      var t, span := ts[p].token, ts[p].span;
      p := p + 1;
      if t.Identifier? {
        var thenSpan: Option<Span> := None;
        if p < |ts| && ts[p].token.Then? {
          thenSpan := Some(ts[p].span);
          p := p + 1;
          assert OpsChain(ts, p - 2) == Prepend([Op(span, thenSpan)], OpsChain(ts, p));
          PrependTwice(ops, [Op(span, thenSpan)], OpsChain(ts, p));
        }
        ops := ops + [Op(span, thenSpan)];
        if thenSpan.None? {
          return Ok(Parsed(ops, p));
        }
      } else if t.Newline? {
        assert ops + [] == ops;
        return Ok(Parsed(ops, p));
      } else {
        return Err(UnexpectedToken(p - 1));
      }
    }
    assert OpsChain(ts, p) == Ok(Parsed([], p));
    assert ops + [] == ops;
    return Ok(Parsed(ops, p));
  }

  /**
   * `parse_fn`: the token at `pos` (the caller's `with`), one parameter
   * name, then optionally an `and` token and a second name, then a chain.
   */
  function ParseFn(ts: seq<Lexeme>, pos: nat): (r: PResult<Fn>)
    ensures r.Ok? ==> pos < r.value.next <= |ts|
    ensures r.Ok? ==> (r.value.value.params.andSpan.Some? <==> r.value.value.params.p2.Some?)
  {
    if pos >= |ts| then Err(EndOfInput)
    else
      var p1 :- Monch(ts, pos + 1, L.Identifier);
      if p1.next < |ts| && ts[p1.next].token.And? then
        var p2 :- Monch(ts, p1.next + 1, L.Identifier);
        var ops :- OpsChain(ts, p2.next);
        Ok(Parsed(Fn(ts[pos].span, FnParams(p1.value, Some(ts[p1.next].span), Some(p2.value)), ops.value), ops.next))
      else
        var ops :- OpsChain(ts, p1.next);
        Ok(Parsed(Fn(ts[pos].span, FnParams(p1.value, None, None), ops.value), ops.next))
  }

  /**
   * `parse_assign_value`: a name starts an operator chain, `with` a
   * function, and a number or `not here` is one token on its own.
   */
  function ParseAssignValue(ts: seq<Lexeme>, pos: nat): (r: PResult<AssignValue>)
    ensures r.Ok? ==> pos < r.value.next <= |ts|
    ensures r.Ok? ==>
      && (r.value.value.Ops? <==> ts[pos].token.Identifier?)
      && (r.value.value.FnValue? <==> ts[pos].token.With?)
      && (r.value.value.NumberValue? <==> ts[pos].token.Number?)
      && (r.value.value.NotHereValue? <==> ts[pos].token.NotHere?)
  {
    if pos >= |ts| then Err(EndOfInput)
    else
      var t := ts[pos].token;
      if t.Identifier? then
        var ops :- OpsChain(ts, pos);
        Ok(Parsed(Ops(ops.value), ops.next))
      else if t.With? then
        var f :- ParseFn(ts, pos);
        Ok(Parsed(FnValue(f.value), f.next))
      else if t.Number? then Ok(Parsed(NumberValue(ts[pos].span, t.value), pos + 1))
      else if t.NotHere? then Ok(Parsed(NotHereValue(ts[pos].span), pos + 1))
      else Err(UnexpectedToken(pos))
  }

  /** The assignment target a token names, if it names one. */
  function Target(l: Lexeme): Option<AssignTarget> {
    match l.token
    case Identifier => Some(IdentTarget(l.span))
    case Discard => Some(DiscardTarget(l.span))
    case Return => Some(ReturnTarget(l.span))
    case Goto => Some(GotoTarget(l.span))
    case _ => None
  }

  /**
   * `parse_behaviour`: `still in f` and `if c` each take a name and a
   * further behaviour; a name, `yeet`, `return` or `goto` is the target of
   * an assignment `is` value.
   */
  function ParseBehaviour(ts: seq<Lexeme>, pos: nat): (r: PResult<Behaviour>)
    ensures r.Ok? ==> pos < r.value.next <= |ts|
    decreases |ts| - pos
  {
    if pos >= |ts| then Err(EndOfInput)
    else
      var t := ts[pos].token;
      if t.StillIn? then
        var ident :- Monch(ts, pos + 1, L.Identifier);
        var b :- ParseBehaviour(ts, ident.next);
        Ok(Parsed(StillIn(ts[pos].span, ident.value, b.value), b.next))
      else if t.If? then
        var cond :- Monch(ts, pos + 1, L.Identifier);
        var b :- ParseBehaviour(ts, cond.next);
        Ok(Parsed(Cond(ts[pos].span, cond.value, b.value), b.next))
      else if Target(ts[pos]).Some? then
        var isSpan :- Monch(ts, pos + 1, L.Is);
        var v :- ParseAssignValue(ts, isSpan.next);
        Ok(Parsed(Assign(Target(ts[pos]).value, isSpan.value, v.value), v.next))
      else Err(UnexpectedToken(pos))
  }

  // ---------------------------------------------------------------------
  // What the parsers read: the tokens each parsed value is written with

  /** A chain that ran on past its last name: it is empty or its last op has a `then`. */
  predicate OpenChain(ops: seq<Op>) {
    |ops| == 0 || ops[|ops| - 1].thenSpan.Some?
  }

  function UnparseOps(ops: seq<Op>): (u: seq<Lexeme>)
    ensures |u| >= |ops|
  {
    if |ops| == 0 then []
    else
      [L.Lexeme(L.Identifier, ops[0].ident)]
      + (if ops[0].thenSpan.Some? then [L.Lexeme(L.Then, ops[0].thenSpan.value)] else [])
      + UnparseOps(ops[1..])
  }

  /** The tokens of a function value before its chain: `with` and its parameters. */
  function FnHead(f: Fn): seq<Lexeme> {
    [L.Lexeme(L.With, f.withSpan), L.Lexeme(L.Identifier, f.params.p1)]
    + (if f.params.andSpan.Some? then [L.Lexeme(L.And, f.params.andSpan.value)] else [])
    + (if f.params.p2.Some? then [L.Lexeme(L.Identifier, f.params.p2.value)] else [])
  }

  function UnparseFn(f: Fn): seq<Lexeme> {
    FnHead(f) + UnparseOps(f.ops)
  }

  function UnparseValue(v: AssignValue): seq<Lexeme> {
    match v
    case Ops(ops) => UnparseOps(ops)
    case FnValue(f) => UnparseFn(f)
    case NumberValue(span, n) => [L.Lexeme(L.Number(n), span)]
    case NotHereValue(span) => [L.Lexeme(L.NotHere, span)]
  }

  /** A value that ends in an open chain. */
  predicate OpenValue(v: AssignValue) {
    (v.Ops? && OpenChain(v.ops)) || (v.FnValue? && OpenChain(v.func.ops))
  }

  function TargetLexeme(t: AssignTarget): (l: Lexeme)
    ensures Target(l) == Some(t)
  {
    match t
    case IdentTarget(span) => L.Lexeme(L.Identifier, span)
    case DiscardTarget(span) => L.Lexeme(L.Discard, span)
    case ReturnTarget(span) => L.Lexeme(L.Return, span)
    case GotoTarget(span) => L.Lexeme(L.Goto, span)
  }

  function UnparseBehaviour(b: Behaviour): (u: seq<Lexeme>)
    ensures |u| >= 2
  {
    match b
    case StillIn(s, ident, inner) =>
      [L.Lexeme(L.StillIn, s), L.Lexeme(L.Identifier, ident)] + UnparseBehaviour(inner)
    case Cond(s, cond, inner) => [L.Lexeme(L.If, s), L.Lexeme(L.Identifier, cond)] + UnparseBehaviour(inner)
    case Assign(target, isSpan, value) =>
      [TargetLexeme(target), L.Lexeme(L.Is, isSpan)] + UnparseValue(value)
  }

  /** A behaviour whose assignment ends in an open chain. */
  predicate OpenBehaviour(b: Behaviour) {
    match b
    case StillIn(_, _, inner) => OpenBehaviour(inner)
    case Cond(_, _, inner) => OpenBehaviour(inner)
    case Assign(_, _, value) => OpenValue(value)
  }

  /**
   * The parser read `u` at `pos` and stopped at `next`: straight after `u`,
   * or, when `u` ends in an open chain and the input goes on, after one
   * more token, a `Newline`.
   */
  predicate Spelled(ts: seq<Lexeme>, pos: nat, next: nat, u: seq<Lexeme>, open: bool) {
    pos + |u| <= |ts| && ts[pos..pos + |u|] == u
    && next == (if open && pos + |u| < |ts| then pos + |u| + 1 else pos + |u|)
    && (next > pos + |u| ==> ts[pos + |u|].token.Newline?)
  }

  lemma {:induction false} SpelledAfter(ts: seq<Lexeme>, pos: nat, next: nat, a: seq<Lexeme>, u: seq<Lexeme>, open: bool)
    requires pos + |a| <= |ts| && ts[pos..pos + |a|] == a
    requires Spelled(ts, pos + |a|, next, u, open)
    ensures Spelled(ts, pos, next, a + u, open)
  {
    assert ts[pos..pos + |a| + |u|] == ts[pos..pos + |a|] + ts[pos + |a|..pos + |a| + |u|];
  }

  /**
   * An operator chain is exactly the tokens read, every op but the last
   * has a `then`, and the chain consumes a `Newline` only when it is open.
   */
  lemma {:induction false} OpsChainSound(ts: seq<Lexeme>, pos: nat)
    requires pos <= |ts|
    ensures var r := OpsChain(ts, pos);
      r.Ok? ==>
        && (forall i :: 0 <= i < |r.value.value| - 1 ==> r.value.value[i].thenSpan.Some?)
        && Spelled(ts, pos, r.value.next, UnparseOps(r.value.value), OpenChain(r.value.value))
    decreases |ts| - pos, 1
  {
    if pos < |ts| && ts[pos].token.Identifier? {
      if pos + 1 < |ts| && ts[pos + 1].token.Then? {
        ThenSound(ts, pos);
      } else {
        var op := Op(ts[pos].span, None);
        assert OpsChain(ts, pos) == Ok(Parsed([op], pos + 1));
        UnparseOpsCons(op, []);
        assert ts[pos..pos + 1] == [L.Lexeme(L.Identifier, op.ident)];
      }
    }
  }

  /** A name and a `then`, followed by the rest of the chain. */
  lemma {:induction false} ThenSound(ts: seq<Lexeme>, pos: nat)
    requires pos + 1 < |ts| && ts[pos].token.Identifier? && ts[pos + 1].token.Then?
    ensures var r := OpsChain(ts, pos);
      r.Ok? ==>
        && (forall i :: 0 <= i < |r.value.value| - 1 ==> r.value.value[i].thenSpan.Some?)
        && Spelled(ts, pos, r.value.next, UnparseOps(r.value.value), OpenChain(r.value.value))
    decreases |ts| - pos, 0
  {
    var op := Op(ts[pos].span, Some(ts[pos + 1].span));
    var rest := OpsChain(ts, pos + 2);
    assert OpsChain(ts, pos) == Prepend([op], rest);
    OpsChainSound(ts, pos + 2);
    if rest.Ok? {
      assert OpsChain(ts, pos) == Ok(Parsed([op] + rest.value.value, rest.value.next));
      ConsSpelled(ts, pos, op, rest.value.value, rest.value.next);
    }
  }

  /** Spelling one more op, with its `then`, in front of a chain. */
  lemma {:induction false} ConsSpelled(ts: seq<Lexeme>, pos: nat, op: Op, ops: seq<Op>, next: nat)
    requires op.thenSpan.Some? && pos + 1 < |ts|
    requires ts[pos] == L.Lexeme(L.Identifier, op.ident)
    requires ts[pos + 1] == L.Lexeme(L.Then, op.thenSpan.value)
    requires forall i :: 0 <= i < |ops| - 1 ==> ops[i].thenSpan.Some?
    requires Spelled(ts, pos + 2, next, UnparseOps(ops), OpenChain(ops))
    ensures forall i :: 0 <= i < |[op] + ops| - 1 ==> ([op] + ops)[i].thenSpan.Some?
    ensures Spelled(ts, pos, next, UnparseOps([op] + ops), OpenChain([op] + ops))
  {
    UnparseOpsCons(op, ops);
    var head := [L.Lexeme(L.Identifier, op.ident)] + [L.Lexeme(L.Then, op.thenSpan.value)];
    assert ts[pos..pos + 2] == head;
    SpelledAfter(ts, pos, next, head, UnparseOps(ops), OpenChain(ops));
    assert OpenChain([op] + ops) == OpenChain(ops);
    forall i | 0 <= i < |[op] + ops| - 1
      ensures ([op] + ops)[i].thenSpan.Some?
    {
      if i > 0 {
        assert ([op] + ops)[i] == ops[i - 1];
      }
    }
  }

  /** The tokens of a chain with one more op in front. */
  lemma {:induction false} UnparseOpsCons(op: Op, ops: seq<Op>)
    ensures UnparseOps([op] + ops)
      == [L.Lexeme(L.Identifier, op.ident)]
      + (if op.thenSpan.Some? then [L.Lexeme(L.Then, op.thenSpan.value)] else [])
      + UnparseOps(ops)
  {
    assert ([op] + ops)[1..] == ops;
  }

  /** A chain fails only at a token that is neither a name nor a `Newline`. */
  lemma {:induction false} OpsChainFails(ts: seq<Lexeme>, pos: nat)
    ensures var r := OpsChain(ts, pos);
      r.Err? ==>
        && r.error.UnexpectedToken? && pos <= r.error.at < |ts|
        && !ts[r.error.at].token.Identifier? && !ts[r.error.at].token.Newline?
    decreases |ts| - pos
  {
    if pos + 1 < |ts| && ts[pos].token.Identifier? && ts[pos + 1].token.Then? {
      OpsChainFails(ts, pos + 2);
    }
  }

  /** A function value is exactly the tokens read, starting from its `with`. */
  lemma {:induction false} ParseFnSound(ts: seq<Lexeme>, pos: nat)
    requires pos < |ts| && ts[pos].token.With?
    ensures var r := ParseFn(ts, pos);
      r.Ok? ==> Spelled(ts, pos, r.value.next, UnparseFn(r.value.value), OpenChain(r.value.value.ops))
  {
    var r := ParseFn(ts, pos);
    if r.Ok? {
      var f := r.value.value;
      var n := FnParts(ts, pos);
      OpsChainSound(ts, n);
      SpelledAfter(ts, pos, r.value.next, FnHead(f), UnparseOps(f.ops), OpenChain(f.ops));
    }
  }

  /** A function value read at `pos`: its head, then the chain `OpsChain` reads after it. */
  lemma {:induction false} FnParts(ts: seq<Lexeme>, pos: nat) returns (n: nat)
    requires ParseFn(ts, pos).Ok? && ts[pos].token.With?
    ensures var r := ParseFn(ts, pos).value;
      && n == pos + |FnHead(r.value)| && n <= |ts| && ts[pos..n] == FnHead(r.value)
      && OpsChain(ts, n) == Ok(Parsed(r.value.ops, r.next))
  {
    var f := ParseFn(ts, pos).value.value;
    if f.params.andSpan.Some? {
      n := pos + 4;
      assert ts[pos..n] == [ts[pos], ts[pos + 1], ts[pos + 2], ts[pos + 3]];
    } else {
      n := pos + 2;
      assert ts[pos..n] == [ts[pos], ts[pos + 1]];
    }
  }

  /** An assigned value is exactly the tokens read. */
  lemma {:induction false} ParseAssignValueSound(ts: seq<Lexeme>, pos: nat)
    ensures var r := ParseAssignValue(ts, pos);
      r.Ok? ==> Spelled(ts, pos, r.value.next, UnparseValue(r.value.value), OpenValue(r.value.value))
  {
    var r := ParseAssignValue(ts, pos);
    if r.Ok? {
      var t := ts[pos].token;
      if t.Identifier? {
        OpsChainSound(ts, pos);
      } else if t.With? {
        ParseFnSound(ts, pos);
      } else {
        assert ts[pos..pos + 1] == [ts[pos]];
      }
    }
  }

  /** A behaviour is exactly the tokens read, plus the `Newline` an open chain takes. */
  lemma {:induction false} ParseBehaviourSound(ts: seq<Lexeme>, pos: nat)
    ensures var r := ParseBehaviour(ts, pos);
      r.Ok? ==>
        Spelled(ts, pos, r.value.next, UnparseBehaviour(r.value.value), OpenBehaviour(r.value.value))
    decreases |ts| - pos, 1
  {
    var r := ParseBehaviour(ts, pos);
    if r.Ok? {
      if r.value.value.StillIn? || r.value.value.Cond? {
        NestedBehaviourSound(ts, pos);
      } else {
        AssignSound(ts, pos);
      }
    }
  }

  /** `still in f` or `if c`, then a behaviour read by the recursive call. */
  lemma {:induction false} NestedBehaviourSound(ts: seq<Lexeme>, pos: nat)
    requires ParseBehaviour(ts, pos).Ok?
    requires ParseBehaviour(ts, pos).value.value.StillIn? || ParseBehaviour(ts, pos).value.value.Cond?
    ensures var r := ParseBehaviour(ts, pos).value;
      Spelled(ts, pos, r.next, UnparseBehaviour(r.value), OpenBehaviour(r.value))
    decreases |ts| - pos, 0
  {
    var r := ParseBehaviour(ts, pos).value;
    NestedStep(ts, pos);
    ParseBehaviourSound(ts, pos + 2);
    var head := ts[pos..pos + 2];
    SpelledAfter(ts, pos, r.next, head, UnparseBehaviour(r.value.behaviour), OpenBehaviour(r.value.behaviour));
  }

  /** One step of `still in f` or `if c`: two tokens, then the inner behaviour. */
  lemma {:induction false} NestedStep(ts: seq<Lexeme>, pos: nat)
    requires ParseBehaviour(ts, pos).Ok?
    requires ParseBehaviour(ts, pos).value.value.StillIn? || ParseBehaviour(ts, pos).value.value.Cond?
    ensures pos + 2 <= |ts|
    ensures var r := ParseBehaviour(ts, pos).value;
      && ParseBehaviour(ts, pos + 2) == Ok(Parsed(r.value.behaviour, r.next))
      && UnparseBehaviour(r.value) == ts[pos..pos + 2] + UnparseBehaviour(r.value.behaviour)
  {
    var r := ParseBehaviour(ts, pos).value;
    assert ts[pos..pos + 2] == [ts[pos], ts[pos + 1]];
  }

  /** A target, `is`, then a value. */
  lemma {:induction false} AssignSound(ts: seq<Lexeme>, pos: nat)
    requires ParseBehaviour(ts, pos).Ok? && ParseBehaviour(ts, pos).value.value.Assign?
    ensures var r := ParseBehaviour(ts, pos).value;
      Spelled(ts, pos, r.next, UnparseBehaviour(r.value), OpenBehaviour(r.value))
  {
    var r := ParseBehaviour(ts, pos).value;
    AssignStep(ts, pos);
    ParseAssignValueSound(ts, pos + 2);
    var head := ts[pos..pos + 2];
    SpelledAfter(ts, pos, r.next, head, UnparseValue(r.value.value), OpenValue(r.value.value));
  }

  /** One step of an assignment: target and `is`, then the value. */
  lemma {:induction false} AssignStep(ts: seq<Lexeme>, pos: nat)
    requires ParseBehaviour(ts, pos).Ok? && ParseBehaviour(ts, pos).value.value.Assign?
    ensures pos + 2 <= |ts|
    ensures var r := ParseBehaviour(ts, pos).value;
      && ParseAssignValue(ts, pos + 2) == Ok(Parsed(r.value.value, r.next))
      && UnparseBehaviour(r.value) == ts[pos..pos + 2] + UnparseValue(r.value.value)
  {
    var r := ParseBehaviour(ts, pos).value;
    assert ts[pos] == TargetLexeme(r.value.target);
    assert ts[pos..pos + 2] == [ts[pos], ts[pos + 1]];
  }

  // ---------------------------------------------------------------------
  // Programs

  /**
   * `parse` from position `pos`, where the line counter stands at `line`:
   * a `Newline` is skipped, `//` starts a statement without an expression,
   * a name or `(` starts one with an expression, which must be followed by
   * `//`; any other token fails. Every pass, skipped `Newline`s included,
   * adds one to the counter.
   */
  function Program(ts: seq<Lexeme>, pos: nat, line: nat): (r: Result<seq<Stmt>, ParseError>)
    ensures r.Ok? && pos <= |ts| ==> |r.value| <= |ts| - pos
    decreases |ts| - pos
  {
    if pos >= |ts| then Ok([])
    else
      var t := ts[pos].token;
      if t.Newline? then Program(ts, pos + 1, line + 1)
      else if t.BehaviourStart? then
        var b :- ParseBehaviour(ts, pos + 1);
        var rest :- Program(ts, b.next, line + 1);
        Ok([Stmt(line, None, ts[pos].span, b.value)] + rest)
      else if t.Identifier? || t.ParenLeft? then
        var e :- ParseExpr(ts, pos);
        var sep :- Monch(ts, e.next, L.BehaviourStart);
        var b :- ParseBehaviour(ts, sep.next);
        var rest :- Program(ts, b.next, line + 1);
        Ok([Stmt(line, Some(e.value), sep.value, b.value)] + rest)
      else Err(UnexpectedToken(pos))
  }

  /** `stmts` in front of the statements of a successful result; a failure stays as it is. */
  function PrependStmts(stmts: seq<Stmt>, r: Result<seq<Stmt>, ParseError>): (q: Result<seq<Stmt>, ParseError>)
    ensures q.Ok? <==> r.Ok?
    ensures q.Ok? ==> |q.value| == |stmts| + |r.value| && q.value[..|stmts|] == stmts
  {
    if r.Ok? then Ok(stmts + r.value) else r
  }

  /** `parse`: the loop over the whole token stream, with the line counter starting at 1. */
  method Parse(ts: seq<Lexeme>) returns (r: Result<seq<Stmt>, ParseError>)
    ensures r == Program(ts, 0, 1)
  {
    var stmts: seq<Stmt> := [];
    var pos: nat := 0;
    var line: nat := 1;
    while pos < |ts|
      invariant pos <= |ts|
      invariant Program(ts, 0, 1) == PrependStmts(stmts, Program(ts, pos, line))
      decreases |ts| - pos
    {
      var t := ts[pos].token;
      ghost var before := Program(ts, pos, line);
      if t.Newline? {
        pos := pos + 1;
      } else if t.BehaviourStart? {
        var sep := ts[pos].span;
        var b := ParseBehaviour(ts, pos + 1);
        if b.Err? {
          return Err(b.error);
        }
        var stmt := Stmt(line, None, sep, b.value.value);
        PrependStmtsTwice(stmts, stmt, Program(ts, b.value.next, line + 1));
        stmts := stmts + [stmt];
        pos := b.value.next;
      } else if t.Identifier? || t.ParenLeft? {
        var e := ParseExpr(ts, pos);
        if e.Err? {
          return Err(e.error);
        }
        var sep := Monch(ts, e.value.next, L.BehaviourStart);
        if sep.Err? {
          return Err(sep.error);
        }
        var b := ParseBehaviour(ts, sep.value.next);
        if b.Err? {
          return Err(b.error);
        }
        var stmt := Stmt(line, Some(e.value.value), sep.value.value, b.value.value);
        PrependStmtsTwice(stmts, stmt, Program(ts, b.value.next, line + 1));
        stmts := stmts + [stmt];
        pos := b.value.next;
      } else {
        return Err(UnexpectedToken(pos));
      }
      line := line + 1;
    }
    assert stmts + [] == stmts;
    return Ok(stmts);
  }

  lemma {:induction false} PrependStmtsTwice(stmts: seq<Stmt>, stmt: Stmt, r: Result<seq<Stmt>, ParseError>)
    ensures PrependStmts(stmts, (if r.Ok? then Ok([stmt] + r.value) else r))
      == PrependStmts(stmts + [stmt], r)
  {
    if r.Ok? {
      assert stmts + ([stmt] + r.value) == (stmts + [stmt]) + r.value;
    }
  }

  /** Statement lines are at least the starting counter and strictly increase. */
  lemma {:induction false} ProgramLines(ts: seq<Lexeme>, pos: nat, line: nat)
    ensures var r := Program(ts, pos, line);
      r.Ok? ==>
        && (forall i :: 0 <= i < |r.value| ==> line <= r.value[i].line)
        && (forall i, j :: 0 <= i < j < |r.value| ==> r.value[i].line < r.value[j].line)
    decreases |ts| - pos, 1
  {
    if pos < |ts| && Program(ts, pos, line).Ok? {
      if ts[pos].token.Newline? {
        ProgramLines(ts, pos + 1, line + 1);
      } else {
        StmtLines(ts, pos, line);
      }
    }
  }

  /** A statement at `pos`, then the rest of the program on later lines. */
  lemma {:induction false} StmtLines(ts: seq<Lexeme>, pos: nat, line: nat)
    requires pos < |ts| && !ts[pos].token.Newline? && Program(ts, pos, line).Ok?
    ensures var stmts := Program(ts, pos, line).value;
      && (forall i :: 0 <= i < |stmts| ==> line <= stmts[i].line)
      && (forall i, j :: 0 <= i < j < |stmts| ==> stmts[i].line < stmts[j].line)
    decreases |ts| - pos, 0
  {
    var stmt, next := StmtStep(ts, pos, line);
    ProgramLines(ts, next, line + 1);
    LinesCons(stmt, Program(ts, next, line + 1).value, line);
  }

  /** The first statement `parse` reads at `pos`, on `line`, and where the rest begins. */
  lemma {:induction false} StmtStep(ts: seq<Lexeme>, pos: nat, line: nat) returns (stmt: Stmt, next: nat)
    requires pos < |ts| && !ts[pos].token.Newline? && Program(ts, pos, line).Ok?
    ensures pos < next && stmt.line == line && Program(ts, next, line + 1).Ok?
    ensures Program(ts, pos, line).value == [stmt] + Program(ts, next, line + 1).value
  {
    if ts[pos].token.BehaviourStart? {
      stmt, next := StepWithoutExpr(ts, pos, line);
    } else {
      var sep;
      stmt, sep, next := StepWithExpr(ts, pos, line);
    }
  }

  /** A statement on `line` in front of statements on later, increasing lines. */
  lemma {:induction false} LinesCons(stmt: Stmt, rest: seq<Stmt>, line: nat)
    requires stmt.line == line
    requires forall i :: 0 <= i < |rest| ==> line + 1 <= rest[i].line
    requires forall i, j :: 0 <= i < j < |rest| ==> rest[i].line < rest[j].line
    ensures forall i :: 0 <= i < |[stmt] + rest| ==> line <= ([stmt] + rest)[i].line
    ensures forall i, j :: 0 <= i < j < |[stmt] + rest| ==> ([stmt] + rest)[i].line < ([stmt] + rest)[j].line
  {
    var stmts := [stmt] + rest;
    forall i | 0 < i < |stmts|
      ensures stmts[i] == rest[i - 1]
    {
    }
  }

  /** The tokens of a statement: its expression if any, `//`, then its behaviour. */
  function UnparseStmt(s: Stmt): (u: seq<Lexeme>)
    ensures |u| > 0
  {
    (if s.expr.Some? then Unparse(s.expr.value) else [])
    + [L.Lexeme(L.BehaviourStart, s.sep)] + UnparseBehaviour(s.behaviour)
  }

  /**
   * How `stmts` lay out the tokens from `pos` on: each statement is written
   * out in order with the line the counter gives it, separated by
   * `Newline`s, each of which adds one to the counter, except the single
   * `Newline` an open chain takes, which does not.
   */
  predicate Layout(ts: seq<Lexeme>, pos: nat, line: nat, stmts: seq<Stmt>)
    decreases |ts| - pos
  {
    if pos >= |ts| then stmts == []
    else if ts[pos].token.Newline? then Layout(ts, pos + 1, line + 1, stmts)
    else
      && |stmts| > 0 && stmts[0].line == line && StmtAt(ts, pos, stmts[0])
      && Layout(ts, StmtEnd(ts, pos, stmts[0]), line + 1, stmts[1..])
  }

  /** Where a statement written at `pos` ends, with the `Newline` an open chain takes. */
  function StmtEnd(ts: seq<Lexeme>, pos: nat, s: Stmt): (next: nat)
    ensures pos < next
  {
    var n := pos + |UnparseStmt(s)|;
    if OpenBehaviour(s.behaviour) && n < |ts| then n + 1 else n
  }

  /** The statement is written at `pos`. */
  predicate StmtAt(ts: seq<Lexeme>, pos: nat, s: Stmt) {
    Spelled(ts, pos, StmtEnd(ts, pos, s), UnparseStmt(s), OpenBehaviour(s.behaviour))
  }

  /** A statement of the program, then the rest of it. */
  lemma {:induction false} LayoutCons(ts: seq<Lexeme>, pos: nat, line: nat, stmt: Stmt, rest: seq<Stmt>, next: nat)
    requires pos < |ts| && !ts[pos].token.Newline? && stmt.line == line
    requires Spelled(ts, pos, next, UnparseStmt(stmt), OpenBehaviour(stmt.behaviour))
    requires Layout(ts, next, line + 1, rest)
    ensures next == StmtEnd(ts, pos, stmt)
    ensures Layout(ts, pos, line, [stmt] + rest)
  {
    assert ([stmt] + rest)[1..] == rest;
  }

  /** One statement without an expression, as `parse` reads it. */
  lemma {:induction false} StepWithoutExpr(ts: seq<Lexeme>, pos: nat, line: nat) returns (stmt: Stmt, next: nat)
    requires pos < |ts| && ts[pos].token.BehaviourStart? && Program(ts, pos, line).Ok?
    ensures stmt == Stmt(line, None, ts[pos].span, stmt.behaviour)
    ensures ParseBehaviour(ts, pos + 1) == Ok(Parsed(stmt.behaviour, next))
    ensures Program(ts, next, line + 1).Ok?
    ensures Program(ts, pos, line).value == [stmt] + Program(ts, next, line + 1).value
  {
    var b := ParseBehaviour(ts, pos + 1).value;
    stmt, next := Stmt(line, None, ts[pos].span, b.value), b.next;
  }

  /** One statement with an expression, as `parse` reads it: the `//` after it is at `sep`. */
  lemma {:induction false} StepWithExpr(ts: seq<Lexeme>, pos: nat, line: nat) returns (stmt: Stmt, sep: nat, next: nat)
    requires pos < |ts| && (ts[pos].token.Identifier? || ts[pos].token.ParenLeft?)
    requires Program(ts, pos, line).Ok?
    ensures stmt.expr.Some? && ParseExpr(ts, pos) == Ok(Parsed(stmt.expr.value, sep))
    ensures sep < |ts| && ts[sep].token.BehaviourStart? && stmt.sep == ts[sep].span && stmt.line == line
    ensures ParseBehaviour(ts, sep + 1) == Ok(Parsed(stmt.behaviour, next))
    ensures Program(ts, next, line + 1).Ok?
    ensures Program(ts, pos, line).value == [stmt] + Program(ts, next, line + 1).value
  {
    var e := ParseExpr(ts, pos).value;
    var b := ParseBehaviour(ts, e.next + 1).value;
    stmt, sep, next := Stmt(line, Some(e.value), ts[e.next].span, b.value), e.next, b.next;
  }

  /** Whatever `parse` accepts is laid out exactly as its statements say. */
  lemma {:induction false} ProgramSound(ts: seq<Lexeme>, pos: nat, line: nat)
    ensures var r := Program(ts, pos, line); r.Ok? ==> Layout(ts, pos, line, r.value)
    decreases |ts| - pos, 1
  {
    if pos < |ts| && Program(ts, pos, line).Ok? {
      var t := ts[pos].token;
      if t.Newline? {
        ProgramSound(ts, pos + 1, line + 1);
      } else if t.BehaviourStart? {
        StmtWithoutExprSound(ts, pos, line);
      } else {
        StmtWithExprSound(ts, pos, line);
      }
    }
  }

  /** A statement that starts with `//`, then the rest of the program. */
  lemma {:induction false} StmtWithoutExprSound(ts: seq<Lexeme>, pos: nat, line: nat)
    requires pos < |ts| && ts[pos].token.BehaviourStart? && Program(ts, pos, line).Ok?
    ensures Layout(ts, pos, line, Program(ts, pos, line).value)
    decreases |ts| - pos, 0
  {
    var stmt, next := StepWithoutExpr(ts, pos, line);
    ProgramSound(ts, next, line + 1);
    StmtWithoutExprSpelled(ts, pos, stmt, next);
    LayoutCons(ts, pos, line, stmt, Program(ts, next, line + 1).value, next);
  }

  /** A statement that starts with an expression, then the rest of the program. */
  lemma {:induction false} StmtWithExprSound(ts: seq<Lexeme>, pos: nat, line: nat)
    requires pos < |ts| && (ts[pos].token.Identifier? || ts[pos].token.ParenLeft?)
    requires Program(ts, pos, line).Ok?
    ensures Layout(ts, pos, line, Program(ts, pos, line).value)
    decreases |ts| - pos, 0
  {
    var stmt, sep, next := StepWithExpr(ts, pos, line);
    ProgramSound(ts, next, line + 1);
    StmtWithExprSpelled(ts, pos, stmt, sep, next);
    assert !ts[pos].token.Newline?;
    LayoutCons(ts, pos, line, stmt, Program(ts, next, line + 1).value, next);
  }

  /** A statement without an expression is spelled by the tokens `parse` reads for it. */
  lemma {:induction false} StmtWithoutExprSpelled(ts: seq<Lexeme>, pos: nat, stmt: Stmt, next: nat)
    requires pos < |ts| && ts[pos].token.BehaviourStart?
    requires stmt.expr.None? && stmt.sep == ts[pos].span
    requires ParseBehaviour(ts, pos + 1) == Ok(Parsed(stmt.behaviour, next))
    ensures Spelled(ts, pos, next, UnparseStmt(stmt), OpenBehaviour(stmt.behaviour))
  {
    ParseBehaviourSound(ts, pos + 1);
    assert ts[pos] == L.Lexeme(L.BehaviourStart, ts[pos].span);
    SepSpelled(ts, pos, [], pos, ts[pos].span, UnparseBehaviour(stmt.behaviour), next, OpenBehaviour(stmt.behaviour));
  }

  /** A statement with an expression is spelled by the tokens `parse` reads for it. */
  lemma {:induction false} StmtWithExprSpelled(ts: seq<Lexeme>, pos: nat, stmt: Stmt, sep: nat, next: nat)
    requires stmt.expr.Some? && ParseExpr(ts, pos) == Ok(Parsed(stmt.expr.value, sep))
    requires sep < |ts| && ts[sep].token.BehaviourStart? && stmt.sep == ts[sep].span
    requires ParseBehaviour(ts, sep + 1) == Ok(Parsed(stmt.behaviour, next))
    ensures Spelled(ts, pos, next, UnparseStmt(stmt), OpenBehaviour(stmt.behaviour))
  {
    var x := Unparse(stmt.expr.value);
    var u := UnparseBehaviour(stmt.behaviour);
    var open := OpenBehaviour(stmt.behaviour);
    assert pos <= sep && ts[pos..sep] == x by {
      ParseExprSound(ts, pos);
    }
    assert Spelled(ts, sep + 1, next, u, open) by {
      ParseBehaviourSound(ts, sep + 1);
    }
    assert ts[sep] == L.Lexeme(L.BehaviourStart, stmt.sep);
    SepSpelled(ts, pos, x, sep, stmt.sep, u, next, open);
  }

  /** Tokens `x`, a `//`, then a behaviour spelled after it. */
  lemma {:induction false} SepSpelled(ts: seq<Lexeme>, pos: nat, x: seq<Lexeme>, k: nat, sep: Span, u: seq<Lexeme>, next: nat, open: bool)
    requires pos <= k < |ts| && ts[pos..k] == x
    requires ts[k] == L.Lexeme(L.BehaviourStart, sep)
    requires Spelled(ts, k + 1, next, u, open)
    ensures Spelled(ts, pos, next, x + [L.Lexeme(L.BehaviourStart, sep)] + u, open)
  {
    var head := x + [L.Lexeme(L.BehaviourStart, sep)];
    assert ts[pos..pos + |head|] == head by {
      SliceAround(ts, pos, pos + |x|, pos + |x| + 1);
    }
    SpelledAfter(ts, pos, next, head, u, open);
  }

  /**
   * A statement written at `pos` has no expression exactly when it starts
   * with `//`; otherwise `//` follows its expression and is its separator.
   */
  lemma {:induction false} StmtStart(ts: seq<Lexeme>, pos: nat, s: Stmt)
    requires StmtAt(ts, pos, s)
    ensures pos < |ts|
    ensures s.expr.None? <==> ts[pos].token.BehaviourStart?
    ensures s.expr.Some? ==>
      && (ts[pos].token.Identifier? || ts[pos].token.ParenLeft?)
      && pos + |Unparse(s.expr.value)| < |ts|
      && ts[pos + |Unparse(s.expr.value)|] == L.Lexeme(L.BehaviourStart, s.sep)
  {
    var u := UnparseStmt(s);
    StmtTokens(s);
    SliceAt(ts, pos, u, 0);
    if s.expr.Some? {
      SliceAt(ts, pos, u, |Unparse(s.expr.value)|);
    }
  }

  /** The first token of a statement, and the `//` after its expression. */
  lemma {:induction false} StmtTokens(s: Stmt)
    ensures s.expr.None? ==> UnparseStmt(s)[0] == L.Lexeme(L.BehaviourStart, s.sep)
    ensures s.expr.Some? ==>
      && |Unparse(s.expr.value)| < |UnparseStmt(s)|
      && UnparseStmt(s)[0] == Unparse(s.expr.value)[0]
      && UnparseStmt(s)[|Unparse(s.expr.value)|] == L.Lexeme(L.BehaviourStart, s.sep)
  {
  }

  /** A token inside a slice that spells `u`. */
  lemma {:induction false} SliceAt(ts: seq<Lexeme>, pos: nat, u: seq<Lexeme>, k: nat)
    requires pos + |u| <= |ts| && ts[pos..pos + |u|] == u && k < |u|
    ensures ts[pos + k] == u[k]
  {
  }

  /** A token that cannot start a statement or be skipped makes `parse` fail. */
  lemma {:induction false} ProgramRejects(ts: seq<Lexeme>, pos: nat, line: nat)
    requires pos < |ts|
    requires !(ts[pos].token.Newline? || ts[pos].token.BehaviourStart?
      || ts[pos].token.Identifier? || ts[pos].token.ParenLeft?)
    ensures Program(ts, pos, line) == Err(UnexpectedToken(pos))
  {
  }
}
