/**
 * The second syntax tree: name resolution. Every name is bound to a
 * numeric identifier, function definitions are collected into blocks,
 * and each expression is paired with the list of operator names written
 * after its `is` to build a tree of calls. The source text is needed to
 * read names from their spans. Where the resolver panics, the model
 * returns an error.
 */
module Ast2 {
  import opened Wrappers
  import A = Ast1
  import L = Lexer

  datatype Identifier = Identifier(id: nat)

  datatype DecoratedExpr =
    | CallExpr(func: Identifier, p1: DecoratedExpr, p2: Option<DecoratedExpr>)
    | IdentExpr(ident: Identifier)

  datatype FuncDecl = FuncDecl(line: nat, id: Identifier, p1: Identifier, p2: Option<Identifier>)

  datatype Callable =
    | ExternFunction(line: nat, name: string, ident: Identifier)
    | FuncBlock(decl: FuncDecl, block: seq<DecoratedStmt>)

  datatype DecoratedStmt =
    | LoadLiteralNumber(line: nat, ident: Identifier, number: nat)
    | CallableStmt(callable: Callable)
    | Conditional(condition: Identifier, success: DecoratedStmt)
    | Assignment(line: nat, name: Option<Identifier>, value: DecoratedExpr)
    | ReturnStmt(line: nat, expr: DecoratedExpr)
    | GotoStmt(line: nat, target: DecoratedExpr)

  datatype ResolveError =
    | BadSpan(span: L.Span)            // a span outside the source text
    | MissingName                      // a definition whose target is `yeet`
    | AlreadyBound(name: string)       // a second definition of a name
    | UnboundName(name: string)        // a name used before it is bound
    | TooFewOps                        // fewer operator names than operators
    | TooManyOps                       // more operator names than operators
    | MissingExpr                      // an expression is needed and there is none
    | OpsOnly                          // `return` or `goto` given something other than a chain
    | NoStatement                      // `still in` around a behaviour that yields no statement
    | NotAFunction(name: string)       // `still in` a name that is no function
    | ExternBody(name: string)         // `still in` a function that is `not here`

  /** The statement a conditional runs when its condition holds, through any number of conditionals. */
  function Branch(s: DecoratedStmt): (b: DecoratedStmt)
    ensures !b.Conditional?
    ensures !s.Conditional? ==> b == s
  {
    if s.Conditional? then Branch(s.success) else s
  }

  /** The line an unguarded statement carries. */
  function LineOf(s: DecoratedStmt): nat
    requires !s.Conditional?
  {
    match s
    case LoadLiteralNumber(line, _, _) => line
    case CallableStmt(c) => if c.FuncBlock? then c.decl.line else c.line
    case Assignment(line, _, _) => line
    case ReturnStmt(line, _) => line
    case GotoStmt(line, _) => line
  }

  /**
   * `line_number`: the line a statement was written on; a conditional,
   * however deeply nested, has the line of the statement it finally guards.
   */
  function LineNumber(s: DecoratedStmt): (r: nat)
    ensures r == LineOf(Branch(s))
  {
    match s
    case LoadLiteralNumber(line, _, _) => line
    case CallableStmt(FuncBlock(decl, _)) => decl.line
    case CallableStmt(ExternFunction(line, _, _)) => line
    case Conditional(_, success) => LineNumber(success)
    case Assignment(line, _, _) => line
    case ReturnStmt(line, _) => line
    case GotoStmt(line, _) => line
  }

  /** A conditional is numbered by the line of the statement it guards, however deeply nested. */
  lemma {:induction false} ConditionalLine(s: DecoratedStmt)
    ensures LineNumber(s) == LineNumber(Branch(s))
  {
    if s.Conditional? {
      ConditionalLine(s.success);
    }
  }

  /** `&src[span]`: the text of a span, which must lie within the source. */
  function Text(src: string, span: L.Span): (r: Result<string, ResolveError>)
    ensures r.Ok? <==> span.start <= span.end <= |src|
    ensures r.Ok? ==>
      && |r.value| == span.end - span.start
      && forall i :: 0 <= i < |r.value| ==> r.value[i] == src[span.start + i]
  {
    if span.start <= span.end <= |src| then Ok(src[span.start..span.end]) else Err(BadSpan(span))
  }

  // ---------------------------------------------------------------------
  // The table of names

  type Ids = map<string, Identifier>

  /** The identifiers numbered below `n`. */
  function Below(n: nat): set<Identifier> {
    set i | 0 <= i < n :: Identifier(i)
  }

  /** The identifiers in `ids` are exactly those numbered below its size, none bound twice. */
  predicate IdsDense(ids: Ids) {
    && ids.Values == Below(|ids|)
    && forall n, m :: n in ids && m in ids && n != m ==> ids[n] != ids[m]
  }

  /** `new` keeps every binding of `old`. */
  predicate Extends(old_: Ids, new_: Ids) {
    forall n :: n in old_ ==> n in new_ && new_[n] == old_[n]
  }

  /** An identifier and the table after it was made or found. */
  datatype Bound = Bound(ident: Identifier, ids: Ids)

  /**
   * `create_identifier`: a name must be given and not be bound yet; it is
   * bound to the identifier numbered by the size of the table.
   */
  function Bind(ids: Ids, name: Option<string>): (r: Result<Bound, ResolveError>)
    ensures r.Ok? <==> name.Some? && name.value !in ids
    ensures r.Ok? ==>
      && r.value.ident == Identifier(|ids|) && |r.value.ids| == |ids| + 1
      && name.value in r.value.ids && r.value.ids[name.value] == r.value.ident
      && Extends(ids, r.value.ids) && r.value.ids.Keys == ids.Keys + {name.value}
  {
    if name.None? then Err(MissingName)
    else if name.value in ids then Err(AlreadyBound(name.value))
    else Ok(Bound(Identifier(|ids|), ids[name.value := Identifier(|ids|)]))
  }

  /**
   * `create_or_shadow_ident`: a bound name keeps its identifier and the
   * table is unchanged; a new name is bound as `Bind` binds it.
   */
  function Shadow(ids: Ids, name: string): (r: Bound)
    ensures name in ids ==> r == Bound(ids[name], ids)
    ensures name !in ids ==> Ok(r) == Bind(ids, Some(name))
    ensures name in r.ids && r.ids[name] == r.ident && Extends(ids, r.ids)
    ensures |ids| <= |r.ids| <= |ids| + 1
  {
    if name in ids then Bound(ids[name], ids)
    else Bound(Identifier(|ids|), ids[name := Identifier(|ids|)])
  }

  /** `create_or_shadow_ident_opt`: `Shadow` when a name is given; nothing otherwise. */
  function ShadowOpt(ids: Ids, name: Option<string>): (r: (Option<Identifier>, Ids))
    ensures name.None? ==> r == (None, ids)
    ensures name.Some? ==> var b := Shadow(ids, name.value); r == (Some(b.ident), b.ids)
  {
    if name.None? then (None, ids) else var b := Shadow(ids, name.value); (Some(b.ident), b.ids)
  }

  lemma {:induction false} BelowNext(n: nat)
    ensures Below(n + 1) == Below(n) + {Identifier(n)}
  {
    forall x | x in Below(n + 1)
      ensures x in Below(n) + {Identifier(n)}
    {
      assert x.id < n + 1;
    }
  }

  /** Binding a new name keeps the table dense. */
  lemma {:induction false} BindKeepsDense(ids: Ids, name: Option<string>)
    requires IdsDense(ids) && Bind(ids, name).Ok?
    ensures IdsDense(Bind(ids, name).value.ids)
  {
    var v := Identifier(|ids|);
    var ids' := ids[name.value := v];
    assert Bind(ids, name).value.ids == ids';
    BelowNext(|ids|);
    FreshValues(ids, name.value, v);
    assert v !in ids.Values;
    FreshInjective(ids, name.value, v);
  }

  /** Adding a fresh name adds its identifier to the values. */
  lemma {:induction false} FreshValues(ids: Ids, n: string, v: Identifier)
    requires n !in ids
    ensures ids[n := v].Values == ids.Values + {v}
  {
    var ids' := ids[n := v];
    forall w | w in ids'.Values
      ensures w in ids.Values + {v}
    {
      var k :| k in ids' && ids'[k] == w;
      if k != n {
        assert ids[k] == w;
      }
    }
    forall w | w in ids.Values
      ensures w in ids'.Values
    {
      var k :| k in ids && ids[k] == w;
      assert ids'[k] == w;
    }
    assert ids'[n] == v;
  }

  /** Adding a fresh name under an unused identifier keeps distinct names on distinct identifiers. */
  lemma {:induction false} FreshInjective(ids: Ids, n: string, v: Identifier)
    requires n !in ids && v !in ids.Values
    requires forall a, b :: a in ids && b in ids && a != b ==> ids[a] != ids[b]
    ensures var ids' := ids[n := v];
      forall a, b :: a in ids' && b in ids' && a != b ==> ids'[a] != ids'[b]
  {
    var ids' := ids[n := v];
    forall a, b | a in ids' && b in ids' && a != b
      ensures ids'[a] != ids'[b]
    {
      if a != n && b != n {
        assert ids'[a] == ids[a] && ids'[b] == ids[b];
      } else if a == n {
        assert ids[b] in ids.Values;
      } else {
        assert ids[a] in ids.Values;
      }
    }
  }

  /** Finding or binding a name keeps the table dense. */
  lemma {:induction false} ShadowKeepsDense(ids: Ids, name: string)
    requires IdsDense(ids)
    ensures IdsDense(Shadow(ids, name).ids)
  {
    if name !in ids {
      BindKeepsDense(ids, Some(name));
    }
  }

  // ---------------------------------------------------------------------
  // Pairing an expression with its operator names

  /** The number of operators (binary and unary) in an expression; parentheses count none. */
  function OpCount(e: A.Expr): nat {
    match e
    case Binop(lhs, _, rhs) => OpCount(lhs) + OpCount(rhs) + 1
    case Unop(x, _) => OpCount(x) + 1
    case Paren(_, x, _) => OpCount(x)
    case Ident(_) => 0
  }

  /** The identifier a span's name is bound to; an unbound name fails. */
  function Lookup(ids: Ids, src: string, span: L.Span): (r: Result<Identifier, ResolveError>)
    ensures r.Ok? <==> Text(src, span).Ok? && Text(src, span).value in ids
    ensures r.Ok? ==> r.value == ids[Text(src, span).value]
  {
    var name :- Text(src, span);
    if name in ids then Ok(ids[name]) else Err(UnboundName(name))
  }

  /** A call tree and the operator names not yet used. */
  datatype Zipped = Zipped(expr: DecoratedExpr, rest: seq<A.Op>)

  /**
   * `inner` of `zip_ops_with_expr`: a binary operator takes its left side,
   * then its right side, then the next operator name as its function; a
   * unary operator takes its operand, then the next name; parentheses are
   * passed through; a name is looked up.
   */
  function ZipInner(e: A.Expr, ops: seq<A.Op>, ids: Ids, src: string): (r: Result<Zipped, ResolveError>)
    ensures r.Ok? ==> OpCount(e) <= |ops| && r.value.rest == ops[OpCount(e)..]
  {
    match e
    case Binop(lhs, _, rhs) =>
      var l :- ZipInner(lhs, ops, ids, src);
      var r :- ZipInner(rhs, l.rest, ids, src);
      if |r.rest| == 0 then Err(TooFewOps)
      else
        var f :- Lookup(ids, src, r.rest[0].ident);
        Ok(Zipped(CallExpr(f, l.expr, Some(r.expr)), r.rest[1..]))
    case Unop(x, _) =>
      var z :- ZipInner(x, ops, ids, src);
      if |z.rest| == 0 then Err(TooFewOps)
      else
        var f :- Lookup(ids, src, z.rest[0].ident);
        Ok(Zipped(CallExpr(f, z.expr, None), z.rest[1..]))
    case Paren(_, x, _) => ZipInner(x, ops, ids, src)
    case Ident(span) =>
      var i :- Lookup(ids, src, span);
      Ok(Zipped(IdentExpr(i), ops))
  }

  /** `zip_ops_with_expr`: succeeds only when every operator name is used. */
  function ZipOpsWithExpr(e: A.Expr, ops: seq<A.Op>, ids: Ids, src: string): (r: Result<DecoratedExpr, ResolveError>)
    ensures r.Ok? ==> |ops| == OpCount(e)
  {
    var z :- ZipInner(e, ops, ids, src);
    if |z.rest| != 0 then Err(TooManyOps) else Ok(z.expr)
  }

  /** The functions called by a call tree, in post-order: operands first, then the call. */
  function Calls(d: DecoratedExpr): seq<Identifier> {
    match d
    case CallExpr(f, p1, p2) => Calls(p1) + (if p2.Some? then Calls(p2.value) else []) + [f]
    case IdentExpr(_) => []
  }

  /**
   * `d` has the shape of `e` with its parentheses left out: a binary
   * operator is a call with two arguments, a unary one a call with one,
   * and each name is the identifier it is bound to.
   */
  predicate Decorates(e: A.Expr, d: DecoratedExpr, ids: Ids, src: string) {
    match e
    case Binop(lhs, _, rhs) =>
      d.CallExpr? && d.p2.Some? && Decorates(lhs, d.p1, ids, src) && Decorates(rhs, d.p2.value, ids, src)
    case Unop(x, _) => d.CallExpr? && d.p2.None? && Decorates(x, d.p1, ids, src)
    case Paren(_, x, _) => Decorates(x, d, ids, src)
    case Ident(span) => d.IdentExpr? && Lookup(ids, src, span) == Ok(d.ident)
  }

  /** Every name written in the expression is bound. */
  predicate NamesBound(e: A.Expr, ids: Ids, src: string) {
    match e
    case Binop(lhs, _, rhs) => NamesBound(lhs, ids, src) && NamesBound(rhs, ids, src)
    case Unop(x, _) => NamesBound(x, ids, src)
    case Paren(_, x, _) => NamesBound(x, ids, src)
    case Ident(span) => Lookup(ids, src, span).Ok?
  }

  /** The first `n` operator names are bound; the identifiers they are bound to. */
  predicate OpsBound(ops: seq<A.Op>, n: nat, ids: Ids, src: string)
    requires n <= |ops|
  {
    forall i :: 0 <= i < n ==> Lookup(ids, src, ops[i].ident).Ok?
  }

  /**
   * The call tree has the expression's shape, and its calls, in post-order,
   * are the first `OpCount(e)` operator names, in order.
   */
  lemma {:induction false} ZipInnerSound(e: A.Expr, ops: seq<A.Op>, ids: Ids, src: string)
    ensures var r := ZipInner(e, ops, ids, src);
      r.Ok? ==>
        && Decorates(e, r.value.expr, ids, src)
        && NamesBound(e, ids, src) && OpsBound(ops, OpCount(e), ids, src)
        && |Calls(r.value.expr)| == OpCount(e)
        && forall i :: 0 <= i < OpCount(e) ==> Lookup(ids, src, ops[i].ident) == Ok(Calls(r.value.expr)[i])
    decreases e, 1
  {
    match e
    case Binop(lhs, op, rhs) => BinopZipSound(lhs, op, rhs, ops, ids, src);
    case Unop(x, op) => UnopZipSound(x, op, ops, ids, src);
    case Paren(_, x, _) => ZipInnerSound(x, ops, ids, src);
    case Ident(_) =>
  }

  /** A binary operator: the left operand's names, the right operand's, then its own. */
  lemma {:induction false} BinopZipSound(lhs: A.Expr, op: A.Span, rhs: A.Expr, ops: seq<A.Op>, ids: Ids, src: string)
    ensures var e := A.Binop(lhs, op, rhs);
      var r := ZipInner(e, ops, ids, src);
      r.Ok? ==>
        && Decorates(e, r.value.expr, ids, src)
        && NamesBound(e, ids, src) && OpsBound(ops, OpCount(e), ids, src)
        && |Calls(r.value.expr)| == OpCount(e)
        && forall i :: 0 <= i < OpCount(e) ==> Lookup(ids, src, ops[i].ident) == Ok(Calls(r.value.expr)[i])
    decreases A.Binop(lhs, op, rhs), 0
  {
    var e := A.Binop(lhs, op, rhs);
    if ZipInner(e, ops, ids, src).Ok? {
      var l, rr, f := BinopZipStep(lhs, op, rhs, ops, ids, src);
      ZipInnerSound(lhs, ops, ids, src);
      ZipInnerSound(rhs, l.rest, ids, src);
      BinopCallsSound(lhs, op, rhs, ops, l, rr, f, ids, src);
    }
  }

  /** The call a binary operator makes, from what its two operands pair up with. */
  lemma {:induction false} BinopCallsSound(lhs: A.Expr, op: A.Span, rhs: A.Expr, ops: seq<A.Op>,
                                           l: Zipped, rr: Zipped, f: Identifier, ids: Ids, src: string)
    requires OpCount(lhs) <= |ops| && l.rest == ops[OpCount(lhs)..]
    requires OpCount(rhs) < |l.rest| && rr.rest == l.rest[OpCount(rhs)..]
    requires Lookup(ids, src, rr.rest[0].ident) == Ok(f)
    requires
      && Decorates(lhs, l.expr, ids, src)
      && NamesBound(lhs, ids, src) && OpsBound(ops, OpCount(lhs), ids, src)
      && |Calls(l.expr)| == OpCount(lhs)
      && forall i :: 0 <= i < OpCount(lhs) ==> Lookup(ids, src, ops[i].ident) == Ok(Calls(l.expr)[i])
    requires
      && Decorates(rhs, rr.expr, ids, src)
      && NamesBound(rhs, ids, src) && OpsBound(l.rest, OpCount(rhs), ids, src)
      && |Calls(rr.expr)| == OpCount(rhs)
      && forall i :: 0 <= i < OpCount(rhs) ==> Lookup(ids, src, l.rest[i].ident) == Ok(Calls(rr.expr)[i])
    ensures var e := A.Binop(lhs, op, rhs);
      var d := CallExpr(f, l.expr, Some(rr.expr));
      && Decorates(e, d, ids, src)
      && NamesBound(e, ids, src) && OpsBound(ops, OpCount(e), ids, src)
      && |Calls(d)| == OpCount(e)
      && forall i :: 0 <= i < OpCount(e) ==> Lookup(ids, src, ops[i].ident) == Ok(Calls(d)[i])
  {
    var a, b := OpCount(lhs), OpCount(rhs);
    var d := CallExpr(f, l.expr, Some(rr.expr));
    assert Calls(d) == Calls(l.expr) + Calls(rr.expr) + [f];
    assert rr.rest[0] == ops[a + b];
    LookupsAppend(ops, a, b, Calls(l.expr), Calls(rr.expr), f, ids, src);
  }

  /** One step of `zip_ops_with_expr` at a binary operator. */
  lemma {:induction false} BinopZipStep(lhs: A.Expr, op: A.Span, rhs: A.Expr, ops: seq<A.Op>, ids: Ids, src: string)
    returns (l: Zipped, rr: Zipped, f: Identifier)
    requires ZipInner(A.Binop(lhs, op, rhs), ops, ids, src).Ok?
    ensures ZipInner(lhs, ops, ids, src) == Ok(l)
    ensures ZipInner(rhs, l.rest, ids, src) == Ok(rr)
    ensures |rr.rest| > 0 && Lookup(ids, src, rr.rest[0].ident) == Ok(f)
    ensures ZipInner(A.Binop(lhs, op, rhs), ops, ids, src) == Ok(Zipped(CallExpr(f, l.expr, Some(rr.expr)), rr.rest[1..]))
  {
    l := ZipInner(lhs, ops, ids, src).value;
    rr := ZipInner(rhs, l.rest, ids, src).value;
    f := Lookup(ids, src, rr.rest[0].ident).value;
  }

  /** Lookups of the first `a` names, of the next `b`, then of one more, in that order. */
  lemma {:induction false} LookupsAppend(ops: seq<A.Op>, a: nat, b: nat, c1: seq<Identifier>, c2: seq<Identifier>,
                                         f: Identifier, ids: Ids, src: string)
    requires a + b < |ops| && |c1| == a && |c2| == b
    requires forall i :: 0 <= i < a ==> Lookup(ids, src, ops[i].ident) == Ok(c1[i])
    requires forall i :: 0 <= i < b ==> Lookup(ids, src, ops[a..][i].ident) == Ok(c2[i])
    requires Lookup(ids, src, ops[a + b].ident) == Ok(f)
    ensures forall i :: 0 <= i < a + b + 1 ==> Lookup(ids, src, ops[i].ident) == Ok((c1 + c2 + [f])[i])
  {
    forall i | 0 <= i < a + b + 1
      ensures Lookup(ids, src, ops[i].ident) == Ok((c1 + c2 + [f])[i])
    {
      if a <= i < a + b {
        assert ops[i] == ops[a..][i - a];
      }
    }
  }

  /** A unary operator: the operand's names, then its own. */
  lemma {:induction false} UnopZipSound(x: A.Expr, op: A.Span, ops: seq<A.Op>, ids: Ids, src: string)
    ensures var e := A.Unop(x, op);
      var r := ZipInner(e, ops, ids, src);
      r.Ok? ==>
        && Decorates(e, r.value.expr, ids, src)
        && NamesBound(e, ids, src) && OpsBound(ops, OpCount(e), ids, src)
        && |Calls(r.value.expr)| == OpCount(e)
        && forall i :: 0 <= i < OpCount(e) ==> Lookup(ids, src, ops[i].ident) == Ok(Calls(r.value.expr)[i])
    decreases A.Unop(x, op), 0
  {
    var e := A.Unop(x, op);
    var r := ZipInner(e, ops, ids, src);
    if r.Ok? {
      var z := ZipInner(x, ops, ids, src).value;
      ZipInnerSound(x, ops, ids, src);
      var d := r.value.expr;
      assert Calls(d) == Calls(z.expr) + [d.func];
      forall i | 0 <= i < OpCount(e)
        ensures Lookup(ids, src, ops[i].ident) == Ok(Calls(d)[i])
      {
        if i == OpCount(x) {
          assert ops[i] == z.rest[0];
        }
      }
    }
  }

  /**
   * Conversely: with every name bound and at least as many operator names
   * as operators, the pairing succeeds.
   */
  lemma {:induction false} ZipInnerComplete(e: A.Expr, ops: seq<A.Op>, ids: Ids, src: string)
    requires NamesBound(e, ids, src) && OpCount(e) <= |ops| && OpsBound(ops, OpCount(e), ids, src)
    ensures ZipInner(e, ops, ids, src).Ok?
    decreases e, 1
  {
    match e
    case Binop(lhs, op, rhs) => BinopZipComplete(lhs, op, rhs, ops, ids, src);
    case Unop(x, _) =>
      ZipInnerComplete(x, ops, ids, src);
      assert ZipInner(x, ops, ids, src).value.rest[0] == ops[OpCount(x)];
    case Paren(_, x, _) =>
      ZipInnerComplete(x, ops, ids, src);
    case Ident(_) =>
  }

  /** A binary operator: both operands pair up, and one operator name is left for it. */
  lemma {:induction false} BinopZipComplete(lhs: A.Expr, op: A.Span, rhs: A.Expr, ops: seq<A.Op>, ids: Ids, src: string)
    requires var e := A.Binop(lhs, op, rhs);
      NamesBound(e, ids, src) && OpCount(e) <= |ops| && OpsBound(ops, OpCount(e), ids, src)
    ensures ZipInner(A.Binop(lhs, op, rhs), ops, ids, src).Ok?
    decreases A.Binop(lhs, op, rhs), 0
  {
    ZipInnerComplete(lhs, ops, ids, src);
    var l := ZipInner(lhs, ops, ids, src).value;
    var a := OpCount(lhs);
    assert OpsBound(l.rest, OpCount(rhs), ids, src) by {
      forall i | 0 <= i < OpCount(rhs)
        ensures Lookup(ids, src, l.rest[i].ident).Ok?
      {
        assert l.rest[i] == ops[a + i];
      }
    }
    ZipInnerComplete(rhs, l.rest, ids, src);
    var rr := ZipInner(rhs, l.rest, ids, src).value;
    assert rr.rest[0] == ops[a + OpCount(rhs)];
  }

  /**
   * `zip_ops_with_expr` succeeds exactly when every name in the expression
   * and every operator name is bound and there are as many operator names
   * as operators; its result has the expression's shape and calls the
   * operator names in post-order.
   */
  lemma {:induction false} ZipOpsWithExprSpec(e: A.Expr, ops: seq<A.Op>, ids: Ids, src: string)
    ensures var r := ZipOpsWithExpr(e, ops, ids, src);
      r.Ok? <==> |ops| == OpCount(e) && NamesBound(e, ids, src) && OpsBound(ops, |ops|, ids, src)
    ensures var r := ZipOpsWithExpr(e, ops, ids, src);
      r.Ok? ==>
        && Decorates(e, r.value, ids, src)
        && |Calls(r.value)| == |ops|
        && forall i :: 0 <= i < |ops| ==> Lookup(ids, src, ops[i].ident) == Ok(Calls(r.value)[i])
  {
    ZipInnerSound(e, ops, ids, src);
    if |ops| == OpCount(e) && NamesBound(e, ids, src) && OpsBound(ops, |ops|, ids, src) {
      ZipInnerComplete(e, ops, ids, src);
    }
  }

  /** The names of the Fibonacci example below, each written once in the source text. */
  predicate FibNames(src: string, ids: Ids) {
    && src == "n one two sub fib add"
    && ids == map["n" := Identifier(0), "one" := Identifier(1), "two" := Identifier(2),
                  "sub" := Identifier(3), "fib" := Identifier(4), "add" := Identifier(5)]
  }

  lemma {:induction false} FibLookups(src: string, ids: Ids)
    requires FibNames(src, ids)
    ensures Lookup(ids, src, L.Span(0, 1)) == Ok(Identifier(0))
    ensures Lookup(ids, src, L.Span(2, 5)) == Ok(Identifier(1))
    ensures Lookup(ids, src, L.Span(6, 9)) == Ok(Identifier(2))
    ensures Lookup(ids, src, L.Span(10, 13)) == Ok(Identifier(3))
    ensures Lookup(ids, src, L.Span(14, 17)) == Ok(Identifier(4))
    ensures Lookup(ids, src, L.Span(18, 21)) == Ok(Identifier(5))
  {
    assert src[0..1] == "n" && src[2..5] == "one" && src[6..9] == "two";
    assert src[10..13] == "sub" && src[14..17] == "fib" && src[18..21] == "add";
  }

  /** One half, `(n.x).` with the names `sub then fib`: `fib(sub(n, x))`. */
  lemma {:induction false} FibHalf(src: string, ids: Ids, x: L.Span, k: nat, dot: L.Span, ops: seq<A.Op>, rest: seq<A.Op>)
    requires FibNames(src, ids) && Lookup(ids, src, x) == Ok(Identifier(k))
    requires ops == [A.Op(L.Span(10, 13), Some(dot)), A.Op(L.Span(14, 17), Some(dot))] + rest
    ensures ZipInner(A.Unop(A.Paren(dot, A.Binop(A.Ident(L.Span(0, 1)), dot, A.Ident(x)), dot), dot), ops, ids, src)
      == Ok(Zipped(CallExpr(Identifier(4), CallExpr(Identifier(3), IdentExpr(Identifier(0)), Some(IdentExpr(Identifier(k)))), None), rest))
  {
    FibLookups(src, ids);
    var n := A.Ident(L.Span(0, 1));
    assert ZipInner(n, ops, ids, src) == Ok(Zipped(IdentExpr(Identifier(0)), ops));
    assert ZipInner(A.Ident(x), ops, ids, src) == Ok(Zipped(IdentExpr(Identifier(k)), ops));
    assert ZipInner(A.Binop(n, dot, A.Ident(x)), ops, ids, src)
      == Ok(Zipped(CallExpr(Identifier(3), IdentExpr(Identifier(0)), Some(IdentExpr(Identifier(k)))), ops[1..]));
    assert ops[1..][1..] == rest;
  }

  /**
   * The recursive step of a Fibonacci function, `(n.one)..(n.two).` with
   * the chain `sub then fib then sub then fib then add`: the names are
   * used in post-order, giving `add(fib(sub(n, one)), fib(sub(n, two)))`.
   */
  lemma {:induction false} ZipFibonacci(src: string, ids: Ids, dot: L.Span)
    requires FibNames(src, ids)
    ensures var n, one, two := A.Ident(L.Span(0, 1)), A.Ident(L.Span(2, 5)), A.Ident(L.Span(6, 9));
      var e := A.Binop(A.Unop(A.Paren(dot, A.Binop(n, dot, one), dot), dot), dot,
                       A.Unop(A.Paren(dot, A.Binop(n, dot, two), dot), dot));
      var sub, fib, add := A.Op(L.Span(10, 13), Some(dot)), A.Op(L.Span(14, 17), Some(dot)), A.Op(L.Span(18, 21), None);
      ZipOpsWithExpr(e, [sub, fib, sub, fib, add], ids, src)
        == Ok(CallExpr(Identifier(5),
                CallExpr(Identifier(4), CallExpr(Identifier(3), IdentExpr(Identifier(0)), Some(IdentExpr(Identifier(1)))), None),
                Some(CallExpr(Identifier(4), CallExpr(Identifier(3), IdentExpr(Identifier(0)), Some(IdentExpr(Identifier(2)))), None))))
  {
    FibLookups(src, ids);
    var sub, fib, add := A.Op(L.Span(10, 13), Some(dot)), A.Op(L.Span(14, 17), Some(dot)), A.Op(L.Span(18, 21), None);
    var ops := [sub, fib, sub, fib, add];
    FibHalf(src, ids, L.Span(2, 5), 1, dot, ops, [sub, fib, add]);
    FibHalf(src, ids, L.Span(6, 9), 2, dot, [sub, fib, add], [add]);
  }

  // ---------------------------------------------------------------------
  // Resolving one statement

  /** The two tables the resolver keeps: names to identifiers, and identifiers to functions. */
  datatype Tables = Tables(ids: Ids, funcIds: map<Identifier, Callable>)

  /** What resolving one statement yields (perhaps no statement) and the tables after it. */
  datatype Resolved = Resolved(stmt: Option<DecoratedStmt>, tables: Tables)

  /** The text of a span that may be absent. */
  function OptText(src: string, span: Option<L.Span>): (r: Result<Option<string>, ResolveError>)
    ensures span.None? ==> r == Ok(None)
    ensures span.Some? ==> (r.Ok? <==> Text(src, span.value).Ok?)
    ensures span.Some? && r.Ok? ==> r.value == Some(Text(src, span.value).value)
  {
    if span.None? then Ok(None)
    else
      var t :- Text(src, span.value);
      Ok(Some(t))
  }

  /** The name a definition binds: the text of an identifier target, none for `yeet`. */
  function TargetName(src: string, target: A.AssignTarget): Result<Option<string>, ResolveError>
    requires target.IdentTarget? || target.DiscardTarget?
  {
    OptText(src, if target.IdentTarget? then Some(target.span) else None)
  }

  /**
   * A definition (`x is ...` or `yeet is ...`): a number binds a fresh
   * name and loads it; `not here` binds a fresh name and records an
   * external function under it; an operator chain finds or binds the name
   * and assigns it the call tree; `with` binds a fresh name and its
   * parameters and records a function whose body is the call tree, if the
   * statement has an expression.
   */
  function ResolveDefinition(line: nat, target: A.AssignTarget, value: A.AssignValue, expr: Option<A.Expr>,
                             t: Tables, src: string): (r: Result<Resolved, ResolveError>)
    requires target.IdentTarget? || target.DiscardTarget?
    ensures target.DiscardTarget? && !value.Ops? ==> r == Err(MissingName)
    ensures r.Ok? ==> |t.ids| <= |r.value.tables.ids| <= |t.ids| + 3
  {
    var name :- TargetName(src, target);
    match value
    case NumberValue(_, n) =>
      var b :- Bind(t.ids, name);
      Ok(Resolved(Some(LoadLiteralNumber(line, b.ident, n)), Tables(b.ids, t.funcIds)))
    case NotHereValue(_) =>
      var b :- Bind(t.ids, name);
      Ok(Resolved(None, Tables(b.ids, t.funcIds[b.ident := ExternFunction(line, name.value, b.ident)])))
    case Ops(ops) =>
      var (ident, ids) := ShadowOpt(t.ids, name);
      if expr.None? then Err(MissingExpr)
      else
        var d :- ZipOpsWithExpr(expr.value, ops, ids, src);
        Ok(Resolved(Some(Assignment(line, ident, d)), Tables(ids, t.funcIds)))
    case FnValue(f) =>
      var b :- Bind(t.ids, name);
      var p1Name :- Text(src, f.params.p1);
      var p1 := Shadow(b.ids, p1Name);
      var p2Name :- OptText(src, f.params.p2);
      var (p2, ids) := ShadowOpt(p1.ids, p2Name);
      var block :- FnBody(line, expr, f.ops, ids, src);
      var decl := FuncDecl(line, b.ident, p1.ident, p2);
      Ok(Resolved(None, Tables(ids, t.funcIds[b.ident := FuncBlock(decl, block)])))
  }

  /** The body of a function: one anonymous assignment of the call tree, or nothing without an expression. */
  function FnBody(line: nat, expr: Option<A.Expr>, ops: seq<A.Op>, ids: Ids, src: string)
    : (r: Result<seq<DecoratedStmt>, ResolveError>)
    ensures expr.None? ==> r == Ok([])
    ensures expr.Some? ==> (r.Ok? <==> ZipOpsWithExpr(expr.value, ops, ids, src).Ok?)
    ensures expr.Some? && r.Ok? ==> r.value == [Assignment(line, None, ZipOpsWithExpr(expr.value, ops, ids, src).value)]
  {
    if expr.None? then Ok([])
    else
      var d :- ZipOpsWithExpr(expr.value, ops, ids, src);
      Ok([Assignment(line, None, d)])
  }

  /** `goto` and `return`: an expression and an operator chain are required; the tables are untouched. */
  function ResolveJump(line: nat, target: A.AssignTarget, value: A.AssignValue, expr: Option<A.Expr>,
                       t: Tables, src: string): (r: Result<Resolved, ResolveError>)
    requires target.GotoTarget? || target.ReturnTarget?
    ensures r.Ok? ==> expr.Some? && value.Ops? && r.value.tables == t && r.value.stmt.Some?
  {
    if expr.None? then Err(MissingExpr)
    else if !value.Ops? then Err(OpsOnly)
    else
      var d :- ZipOpsWithExpr(expr.value, value.ops, t.ids, src);
      var s := if target.GotoTarget? then GotoStmt(line, d) else ReturnStmt(line, d);
      Ok(Resolved(Some(s), t))
  }

  /**
   * `parse_behaviour`: `still in f` resolves its inner behaviour and
   * appends the statement it yields to the body of function `f`; `if c`
   * checks that `c` is bound and yields its inner behaviour's result.
   */
  function ResolveBehaviour(line: nat, b: A.Behaviour, expr: Option<A.Expr>, t: Tables, src: string)
    : (r: Result<Resolved, ResolveError>)
    ensures r.Ok? ==> |t.ids| <= |r.value.tables.ids| <= |t.ids| + 3
  {
    match b
    case Assign(target, _, value) =>
      if target.IdentTarget? || target.DiscardTarget? then ResolveDefinition(line, target, value, expr, t, src)
      else ResolveJump(line, target, value, expr, t, src)
    case StillIn(_, ident, inner) =>
      var name :- Text(src, ident);
      if name !in t.ids then Err(UnboundName(name))
      else
        var f := t.ids[name];
        var r :- ResolveBehaviour(line, inner, expr, t, src);
        if r.stmt.None? then Err(NoStatement)
        else if f !in r.tables.funcIds then Err(NotAFunction(name))
        else
          (match r.tables.funcIds[f]
           case ExternFunction(_, n, _) => Err(ExternBody(n))
           case FuncBlock(decl, block) =>
             Ok(Resolved(r.stmt, Tables(r.tables.ids, r.tables.funcIds[f := FuncBlock(decl, block + [r.stmt.value])]))))
    case Cond(_, cond, inner) =>
      var name :- Text(src, cond);
      if name !in t.ids then Err(UnboundName(name))
      else ResolveBehaviour(line, inner, expr, t, src)
  }

  // ---------------------------------------------------------------------
  // What resolving one statement guarantees

  /** The identifier a function is recorded under, as the function itself says it. */
  function KeyOf(c: Callable): Identifier {
    if c.ExternFunction? then c.ident else c.decl.id
  }

  /** The invariant of the tables: names are numbered densely, functions are keyed by their own identifier, which is bound. */
  predicate Inv(t: Tables) {
    && IdsDense(t.ids)
    && forall k :: k in t.funcIds ==> k.id < |t.ids| && KeyOf(t.funcIds[k]) == k
  }

  /** Function entries are never dropped or replaced: an external stays as it is, a block only grows at its end. */
  predicate Grows(old_: map<Identifier, Callable>, new_: map<Identifier, Callable>) {
    forall k :: k in old_ ==>
      && k in new_
      && (old_[k].ExternFunction? ==> new_[k] == old_[k])
      && (old_[k].FuncBlock? ==> new_[k].FuncBlock? && new_[k].decl == old_[k].decl && old_[k].block <= new_[k].block)
  }

  lemma {:induction false} GrowsTrans(a: map<Identifier, Callable>, b: map<Identifier, Callable>, c: map<Identifier, Callable>)
    requires Grows(a, b) && Grows(b, c)
    ensures Grows(a, c)
  {
    forall k | k in a && a[k].FuncBlock?
      ensures a[k].block <= c[k].block
    {
      assert a[k].block <= b[k].block && b[k].block <= c[k].block;
    }
  }

  /** Every step from one table to the next: names keep their binding, functions grow. */
  predicate Step(t: Tables, t': Tables) {
    Extends(t.ids, t'.ids) && |t.ids| <= |t'.ids| && Grows(t.funcIds, t'.funcIds)
  }

  lemma {:induction false} ShadowOptKeepsDense(ids: Ids, name: Option<string>)
    requires IdsDense(ids)
    ensures IdsDense(ShadowOpt(ids, name).1)
    ensures Extends(ids, ShadowOpt(ids, name).1) && |ids| <= |ShadowOpt(ids, name).1|
  {
    if name.Some? {
      ShadowKeepsDense(ids, name.value);
    }
  }

  /** A function defined under a fresh identifier replaces no entry and keeps the invariant. */
  lemma {:induction false} DefineFresh(t: Tables, ids: Ids, ident: Identifier, c: Callable)
    requires Inv(t) && IdsDense(ids) && Extends(t.ids, ids) && |t.ids| < |ids|
    requires ident == Identifier(|t.ids|) && KeyOf(c) == ident
    ensures Inv(Tables(ids, t.funcIds[ident := c])) && Step(t, Tables(ids, t.funcIds[ident := c]))
  {
  }

  /** Definitions keep the invariant, keep every binding and every function. */
  lemma {:induction false} DefinitionKeepsInv(line: nat, target: A.AssignTarget, value: A.AssignValue, expr: Option<A.Expr>,
                           t: Tables, src: string)
    requires target.IdentTarget? || target.DiscardTarget?
    requires Inv(t)
    ensures var r := ResolveDefinition(line, target, value, expr, t, src);
      r.Ok? ==> Inv(r.value.tables) && Step(t, r.value.tables)
  {
    var r := ResolveDefinition(line, target, value, expr, t, src);
    if r.Ok? {
      var name := TargetName(src, target).value;
      match value
      case NumberValue(_, _) =>
        BindKeepsDense(t.ids, name);
        SameFunctionsKeepInv(t, Bind(t.ids, name).value.ids);
      case NotHereValue(_) =>
        BindKeepsDense(t.ids, name);
        var b := Bind(t.ids, name).value;
        DefineFresh(t, b.ids, b.ident, ExternFunction(line, name.value, b.ident));
      case Ops(_) =>
        ShadowOptKeepsDense(t.ids, name);
        SameFunctionsKeepInv(t, ShadowOpt(t.ids, name).1);
      case FnValue(f) =>
        FnDefinitionKeepsInv(line, target, value, expr, t, src, name);
    }
  }

  /** New bindings over the same functions keep the invariant and are a step. */
  lemma {:induction false} SameFunctionsKeepInv(t: Tables, ids: Ids)
    requires Inv(t) && IdsDense(ids) && Extends(t.ids, ids) && |t.ids| <= |ids|
    ensures Inv(Tables(ids, t.funcIds)) && Step(t, Tables(ids, t.funcIds))
  {
    assert Grows(t.funcIds, t.funcIds) by {
      forall k | k in t.funcIds && t.funcIds[k].FuncBlock?
        ensures t.funcIds[k].block <= t.funcIds[k].block
      {
      }
    }
  }

  /** The `with` arm of `DefinitionKeepsInv`. */
  lemma {:induction false} FnDefinitionKeepsInv(line: nat, target: A.AssignTarget, value: A.AssignValue, expr: Option<A.Expr>,
                           t: Tables, src: string, name: Option<string>)
    requires (target.IdentTarget? || target.DiscardTarget?) && value.FnValue?
    requires Inv(t) && TargetName(src, target) == Ok(name)
    ensures var r := ResolveDefinition(line, target, value, expr, t, src);
      r.Ok? ==> Inv(r.value.tables) && Step(t, r.value.tables)
  {
    var r := ResolveDefinition(line, target, value, expr, t, src);
    if r.Ok? {
      var f := value.func;
      BindKeepsDense(t.ids, name);
      var b := Bind(t.ids, name).value;
      var p1 := Shadow(b.ids, Text(src, f.params.p1).value);
      ShadowKeepsDense(b.ids, Text(src, f.params.p1).value);
      var p2Name := OptText(src, f.params.p2).value;
      ShadowOptKeepsDense(p1.ids, p2Name);
      var (p2, ids) := ShadowOpt(p1.ids, p2Name);
      var block := FnBody(line, expr, f.ops, ids, src).value;
      var c := FuncBlock(FuncDecl(line, b.ident, p1.ident, p2), block);
      DefineFresh(t, ids, b.ident, c);
      assert r.value.tables == Tables(ids, t.funcIds[b.ident := c]);
    }
  }

  /** Every behaviour keeps the invariant, keeps every binding, and only lets functions grow. */
  lemma {:induction false} BehaviourKeepsInv(line: nat, b: A.Behaviour, expr: Option<A.Expr>, t: Tables, src: string)
    requires Inv(t)
    ensures var r := ResolveBehaviour(line, b, expr, t, src);
      r.Ok? ==> Inv(r.value.tables) && Step(t, r.value.tables)
  {
    var r := ResolveBehaviour(line, b, expr, t, src);
    if r.Ok? {
      match b
      case Assign(target, _, value) =>
        if target.IdentTarget? || target.DiscardTarget? {
          DefinitionKeepsInv(line, target, value, expr, t, src);
        } else {
          assert r.value.tables == t;
        }
      case StillIn(_, ident, inner) =>
        BehaviourKeepsInv(line, inner, expr, t, src);
        var q := ResolveBehaviour(line, inner, expr, t, src).value;
        var f := t.ids[Text(src, ident).value];
        var c := q.tables.funcIds[f];
        AppendKeepsInv(q.tables, f, c.decl, c.block, q.stmt.value);
        assert r.value.tables == Tables(q.tables.ids, q.tables.funcIds[f := FuncBlock(c.decl, c.block + [q.stmt.value])]);
        StepTrans(t, q.tables, r.value.tables);
      case Cond(_, _, inner) =>
        BehaviourKeepsInv(line, inner, expr, t, src);
    }
  }

  /** Appending a statement to the block of a function keeps the invariant and is a step. */
  lemma {:induction false} AppendKeepsInv(t: Tables, f: Identifier, decl: FuncDecl, block: seq<DecoratedStmt>, s: DecoratedStmt)
    requires Inv(t) && f in t.funcIds && t.funcIds[f] == FuncBlock(decl, block)
    ensures var t' := Tables(t.ids, t.funcIds[f := FuncBlock(decl, block + [s])]);
      Inv(t') && Step(t, t')
  {
    var t' := Tables(t.ids, t.funcIds[f := FuncBlock(decl, block + [s])]);
    assert KeyOf(t'.funcIds[f]) == f;
    assert Grows(t.funcIds, t'.funcIds) by {
      forall k | k in t.funcIds && t.funcIds[k].FuncBlock?
        ensures t.funcIds[k].block <= t'.funcIds[k].block
      {
        if k == f {
          assert t'.funcIds[k].block == block + [s];
        }
      }
    }
  }

  lemma {:induction false} StepTrans(a: Tables, b: Tables, c: Tables)
    requires Step(a, b) && Step(b, c)
    ensures Step(a, c)
  {
    GrowsTrans(a.funcIds, b.funcIds, c.funcIds);
  }

  /** A behaviour yields a statement unless it is a `not here` or `with` definition (under any `if`). */
  predicate Yields(b: A.Behaviour) {
    match b
    case Assign(target, _, value) =>
      target.GotoTarget? || target.ReturnTarget? || value.Ops? || value.NumberValue?
    case StillIn(_, _, _) => true
    case Cond(_, _, inner) => Yields(inner)
  }

  /**
   * A resolved statement is never a conditional, carries the line of the
   * statement it came from, and is there exactly when the behaviour yields one.
   */
  lemma {:induction false} ResolvedStatement(line: nat, b: A.Behaviour, expr: Option<A.Expr>, t: Tables, src: string)
    ensures var r := ResolveBehaviour(line, b, expr, t, src);
      r.Ok? ==>
        && (r.value.stmt.Some? <==> Yields(b))
        && (r.value.stmt.Some? ==> LineNumber(r.value.stmt.value) == line && !r.value.stmt.value.Conditional?)
  {
    match b
    case Assign(_, _, _) =>
      AssignStatement(line, b, expr, t, src);
    case StillIn(_, _, inner) =>
      ResolvedStatement(line, inner, expr, t, src);
    case Cond(_, _, inner) =>
      ResolvedStatement(line, inner, expr, t, src);
  }

  /** The assignment arm of `ResolvedStatement`. */
  lemma {:induction false} AssignStatement(line: nat, b: A.Behaviour, expr: Option<A.Expr>, t: Tables, src: string)
    requires b.Assign?
    ensures var r := ResolveBehaviour(line, b, expr, t, src);
      r.Ok? ==>
        && (r.value.stmt.Some? <==> Yields(b))
        && (r.value.stmt.Some? ==> LineNumber(r.value.stmt.value) == line && !r.value.stmt.value.Conditional?)
  {
    if b.target.IdentTarget? || b.target.DiscardTarget? {
      DefinitionStatement(line, b.target, b.value, expr, t, src);
    } else {
      JumpSpec(line, b.target, b.isSpan, b.value, expr, t, src);
    }
  }

  /** A definition yields a statement exactly for a number or an operator chain, on its own line. */
  lemma {:induction false} DefinitionStatement(line: nat, target: A.AssignTarget, value: A.AssignValue, expr: Option<A.Expr>,
                            t: Tables, src: string)
    requires target.IdentTarget? || target.DiscardTarget?
    ensures var r := ResolveDefinition(line, target, value, expr, t, src);
      r.Ok? ==>
        && (r.value.stmt.Some? <==> value.Ops? || value.NumberValue?)
        && (r.value.stmt.Some? ==> LineNumber(r.value.stmt.value) == line && !r.value.stmt.value.Conditional?)
  {
    match value
    case NumberValue(_, _) => DefinitionByNumber(line, target, value, expr, t, src);
    case NotHereValue(_) => DefinitionByNotHere(line, target, value, expr, t, src);
    case Ops(_) => DefinitionByOps(line, target, value, expr, t, src);
    case FnValue(_) => DefinitionByFn(line, target, value, expr, t, src);
  }

  /**
   * `return` and `goto`: without an expression they fail, and with anything
   * but an operator chain; otherwise they resolve the call tree against the
   * current names and leave the tables untouched.
   */
  lemma {:induction false} JumpSpec(line: nat, target: A.AssignTarget, s: L.Span, value: A.AssignValue, expr: Option<A.Expr>,
                 t: Tables, src: string)
    requires target.GotoTarget? || target.ReturnTarget?
    ensures var r := ResolveBehaviour(line, A.Assign(target, s, value), expr, t, src);
      && (expr.None? ==> r == Err(MissingExpr))
      && (expr.Some? && !value.Ops? ==> r == Err(OpsOnly))
      && (r.Ok? <==> expr.Some? && value.Ops? && ZipOpsWithExpr(expr.value, value.ops, t.ids, src).Ok?)
      && (r.Ok? ==>
            var d := ZipOpsWithExpr(expr.value, value.ops, t.ids, src).value;
            && r.value.tables == t
            && r.value.stmt == Some(if target.GotoTarget? then GotoStmt(line, d) else ReturnStmt(line, d)))
  {
  }

  /** `if c`: fails unless `c` names a bound name; otherwise exactly the inner behaviour's result. */
  lemma {:induction false} CondSpec(line: nat, i: L.Span, cond: L.Span, inner: A.Behaviour, expr: Option<A.Expr>, t: Tables, src: string)
    ensures var r := ResolveBehaviour(line, A.Cond(i, cond, inner), expr, t, src);
      if Lookup(t.ids, src, cond).Ok? then r == ResolveBehaviour(line, inner, expr, t, src) else r.Err?
  {
  }

  /**
   * `still in f`: succeeds only when `f` is bound, the inner behaviour
   * yields a statement, and `f` is then a function block; the statement is
   * appended to that block and nothing else changes.
   */
  lemma {:induction false} StillInSpec(line: nat, s: L.Span, ident: L.Span, inner: A.Behaviour, expr: Option<A.Expr>,
                    t: Tables, src: string)
    ensures var r := ResolveBehaviour(line, A.StillIn(s, ident, inner), expr, t, src);
      var q := ResolveBehaviour(line, inner, expr, t, src);
      r.Ok? <==>
        && Lookup(t.ids, src, ident).Ok? && q.Ok? && q.value.stmt.Some?
        && var f := Lookup(t.ids, src, ident).value;
           f in q.value.tables.funcIds && q.value.tables.funcIds[f].FuncBlock?
    ensures var r := ResolveBehaviour(line, A.StillIn(s, ident, inner), expr, t, src);
      var q := ResolveBehaviour(line, inner, expr, t, src);
      r.Ok? ==>
        var f := Lookup(t.ids, src, ident).value;
        var old_ := q.value.tables.funcIds[f];
        && r.value.stmt == q.value.stmt
        && r.value.tables.ids == q.value.tables.ids
        && r.value.tables.funcIds == q.value.tables.funcIds[f := FuncBlock(old_.decl, old_.block + [q.value.stmt.value])]
  {
  }

  /**
   * What `with` records under the next identifier: the final name table is
   * the old one with the function's name bound first, then the first and
   * the second parameter each bound to the next identifier unless already
   * present (shadowing reuses the binding); the block is declared on this
   * line with its parameters looked up in that table, and its body is the
   * call tree zipped against it (nothing without an expression).
   * No other function entry changes.
   */
  predicate FnRecorded(line: nat, name: string, f: A.Fn, expr: Option<A.Expr>, t: Tables, src: string, r: Resolved) {
    var id := Identifier(|t.ids|);
    var ids := r.tables.ids;
    && id in r.tables.funcIds && r.tables.funcIds[id].FuncBlock?
    && r.tables.funcIds == t.funcIds[id := r.tables.funcIds[id]]
    && Text(src, f.params.p1).Ok? && OptText(src, f.params.p2).Ok?
    && FnBody(line, expr, f.ops, ids, src).Ok?
    && var c := r.tables.funcIds[id];
       var p1 := Text(src, f.params.p1).value;
       var p2 := OptText(src, f.params.p2).value;
       // the function's name first, then each parameter not bound yet, in order
       && (var i1 := t.ids[name := id];
           var i2 := if p1 in i1 then i1 else i1[p1 := Identifier(|i1|)];
           ids == (if p2.None? || p2.value in i2 then i2 else i2[p2.value := Identifier(|i2|)]))
       && c.decl.id == id && c.decl.line == line
       && p1 in ids && c.decl.p1 == ids[p1]
       && (p2.None? ==> c.decl.p2.None?)
       && (p2.Some? ==> p2.value in ids && c.decl.p2 == Some(ids[p2.value]))
       && c.block == FnBody(line, expr, f.ops, ids, src).value
  }

  /**
   * When an operator chain succeeds, and only then: there is an expression
   * and its call tree zips against the name table in which the target was
   * already found or bound.
   */
  predicate OpsResolve(target: A.AssignTarget, ops: seq<A.Op>, expr: Option<A.Expr>, t: Tables, src: string,
                       r: Result<Resolved, ResolveError>)
    requires target.IdentTarget? || target.DiscardTarget?
    requires TargetName(src, target).Ok?
  {
    var ids := ShadowOpt(t.ids, TargetName(src, target).value).1;
    && (expr.None? ==> r == Err(MissingExpr))
    && (expr.Some? ==> (r.Ok? <==> ZipOpsWithExpr(expr.value, ops, ids, src).Ok?))
  }

  /**
   * What a successful operator chain yields: an assignment on this line of
   * the call tree zipped against the new name table, to the target's
   * identifier, or anonymous for `yeet`. A bound name keeps its binding, a
   * new one is bound to the next identifier; functions are untouched.
   */
  predicate OpsAssigned(line: nat, target: A.AssignTarget, ops: seq<A.Op>, expr: Option<A.Expr>, t: Tables, src: string,
                        r: Resolved)
  {
    var ids := r.tables.ids;
    && expr.Some? && ZipOpsWithExpr(expr.value, ops, ids, src).Ok?
    && r.stmt.Some? && r.stmt.value.Assignment? && r.stmt.value.line == line
    && r.stmt.value.value == ZipOpsWithExpr(expr.value, ops, ids, src).value
    && r.tables.funcIds == t.funcIds
    && (target.DiscardTarget? ==> r.stmt.value.name.None? && ids == t.ids)
    && (target.IdentTarget? ==>
          && Text(src, target.span).Ok?
          && var name := Text(src, target.span).value;
             && name in ids && r.stmt.value.name == Some(ids[name])
             && (name in t.ids ==> ids == t.ids)
             && (name !in t.ids ==> ids == t.ids[name := Identifier(|t.ids|)]))
  }

  /**
   * A definition by number, `not here` or `with` needs a name that is not
   * bound yet, and binds it to the next identifier; `yeet` cannot be
   * defined this way. An operator chain reuses a bound name.
   */
  lemma {:induction false} DefinitionSpec(line: nat, target: A.AssignTarget, value: A.AssignValue, expr: Option<A.Expr>,
                       t: Tables, src: string)
    requires target.IdentTarget? || target.DiscardTarget?
    ensures var r := ResolveDefinition(line, target, value, expr, t, src);
      && (target.DiscardTarget? && !value.Ops? ==> r == Err(MissingName))
      && (!value.Ops? && r.Ok? ==>
            var name := Text(src, target.span).value;
            && target.IdentTarget? && name !in t.ids
            && name in r.value.tables.ids && r.value.tables.ids[name] == Identifier(|t.ids|))
      && (value.NumberValue? && r.Ok? ==>
            r.value.stmt == Some(LoadLiteralNumber(line, Identifier(|t.ids|), value.n)))
      && (value.NotHereValue? && r.Ok? ==>
            var name := Text(src, target.span).value;
            r.value.tables.funcIds == t.funcIds[Identifier(|t.ids|) := ExternFunction(line, name, Identifier(|t.ids|))])
      && (value.FnValue? && r.Ok? ==>
            var id := Identifier(|t.ids|);
            && id in r.value.tables.funcIds && r.value.tables.funcIds[id].FuncBlock?
            && r.value.tables.funcIds[id].decl.id == id && r.value.tables.funcIds[id].decl.line == line
            && r.value.tables.funcIds == t.funcIds[id := r.value.tables.funcIds[id]])
      && (value.Ops? && target.IdentTarget? && r.Ok? ==>
            var name := Text(src, target.span).value;
            && name in r.value.tables.ids
            && r.value.stmt == Some(Assignment(line, Some(r.value.tables.ids[name]), r.value.stmt.value.value))
            && (name in t.ids ==> r.value.tables.ids == t.ids))
    ensures var r := ResolveDefinition(line, target, value, expr, t, src);
      value.FnValue? && r.Ok? ==> FnRecorded(line, Text(src, target.span).value, value.func, expr, t, src, r.value)
    ensures var r := ResolveDefinition(line, target, value, expr, t, src);
      value.Ops? && TargetName(src, target).Ok? ==> OpsResolve(target, value.ops, expr, t, src, r)
    ensures var r := ResolveDefinition(line, target, value, expr, t, src);
      value.Ops? && r.Ok? ==> OpsAssigned(line, target, value.ops, expr, t, src, r.value)
  {
    match value
    case NumberValue(_, _) => DefinitionByNumber(line, target, value, expr, t, src);
    case NotHereValue(_) => DefinitionByNotHere(line, target, value, expr, t, src);
    case Ops(_) => DefinitionByOps(line, target, value, expr, t, src);
    case FnValue(_) => DefinitionByFn(line, target, value, expr, t, src);
  }

  /** A definition by number binds a fresh name and loads the number into it. */
  lemma {:induction false} DefinitionByNumber(line: nat, target: A.AssignTarget, value: A.AssignValue, expr: Option<A.Expr>,
                           t: Tables, src: string)
    requires (target.IdentTarget? || target.DiscardTarget?) && value.NumberValue?
    ensures var r := ResolveDefinition(line, target, value, expr, t, src);
      && (target.DiscardTarget? ==> r == Err(MissingName))
      && (r.Ok? ==>
            var name := Text(src, target.span).value;
            && target.IdentTarget? && name !in t.ids
            && r.value.tables.ids == t.ids[name := Identifier(|t.ids|)]
            && r.value.tables.funcIds == t.funcIds
            && r.value.stmt == Some(LoadLiteralNumber(line, Identifier(|t.ids|), value.n))
            && LineNumber(r.value.stmt.value) == line)
  {
  }

  /** `not here` binds a fresh name to an external function of that name. */
  lemma {:induction false} DefinitionByNotHere(line: nat, target: A.AssignTarget, value: A.AssignValue, expr: Option<A.Expr>,
                            t: Tables, src: string)
    requires (target.IdentTarget? || target.DiscardTarget?) && value.NotHereValue?
    ensures var r := ResolveDefinition(line, target, value, expr, t, src);
      && (target.DiscardTarget? ==> r == Err(MissingName))
      && (r.Ok? ==>
            var name := Text(src, target.span).value;
            && target.IdentTarget? && name !in t.ids
            && r.value.tables.ids == t.ids[name := Identifier(|t.ids|)]
            && r.value.tables.funcIds == t.funcIds[Identifier(|t.ids|) := ExternFunction(line, name, Identifier(|t.ids|))]
            && r.value.stmt.None?)
  {
  }

  /** `with` binds a fresh name to a function block whose body is the statement's call tree, if any. */
  lemma {:induction false} DefinitionByFn(line: nat, target: A.AssignTarget, value: A.AssignValue, expr: Option<A.Expr>,
                       t: Tables, src: string)
    requires (target.IdentTarget? || target.DiscardTarget?) && value.FnValue?
    ensures var r := ResolveDefinition(line, target, value, expr, t, src);
      && (target.DiscardTarget? ==> r == Err(MissingName))
      && (r.Ok? ==>
            var name := Text(src, target.span).value;
            var id := Identifier(|t.ids|);
            && target.IdentTarget? && name !in t.ids
            && name in r.value.tables.ids && r.value.tables.ids[name] == id
            && id in r.value.tables.funcIds && r.value.tables.funcIds[id].FuncBlock?
            && r.value.tables.funcIds[id].decl.id == id && r.value.tables.funcIds[id].decl.line == line
            && |r.value.tables.funcIds[id].block| == (if expr.Some? then 1 else 0)
            && r.value.tables.funcIds == t.funcIds[id := r.value.tables.funcIds[id]]
            && r.value.stmt.None?)
    ensures var r := ResolveDefinition(line, target, value, expr, t, src);
      r.Ok? ==> FnRecorded(line, Text(src, target.span).value, value.func, expr, t, src, r.value)
  {
    var r := ResolveDefinition(line, target, value, expr, t, src);
    if r.Ok? {
      var name := Text(src, target.span).value;
      var f := value.func;
      var b := Bind(t.ids, Some(name)).value;
      var p1 := Shadow(b.ids, Text(src, f.params.p1).value);
      var p2 := ShadowOpt(p1.ids, OptText(src, f.params.p2).value);
      var block := FnBody(line, expr, f.ops, p2.1, src).value;
      assert r.value == Resolved(None, Tables(p2.1, t.funcIds[b.ident := FuncBlock(FuncDecl(line, b.ident, p1.ident, p2.0), block)]));
      assert Extends(b.ids, p1.ids) && Extends(p1.ids, p2.1);
      assert name in p1.ids && p1.ids[name] == b.ident;
      assert Text(src, f.params.p1).value in p2.1;
    }
  }

  /** An operator chain assigns to its name, binding it only when it is not bound yet. */
  lemma {:induction false} DefinitionByOps(line: nat, target: A.AssignTarget, value: A.AssignValue, expr: Option<A.Expr>,
                        t: Tables, src: string)
    requires (target.IdentTarget? || target.DiscardTarget?) && value.Ops?
    ensures var r := ResolveDefinition(line, target, value, expr, t, src);
      TargetName(src, target).Ok? ==> OpsResolve(target, value.ops, expr, t, src, r)
    ensures var r := ResolveDefinition(line, target, value, expr, t, src);
      r.Ok? ==> OpsAssigned(line, target, value.ops, expr, t, src, r.value)
  {
  }

  // ---------------------------------------------------------------------
  // The resolver's state, updated in place

  /**
   * The two hash maps `parse` threads through `parse_behaviour` by mutable
   * reference, with the source text the spans point into.
   */
  class Resolver {
    const src: string
    var ids: Ids
    var funcIds: map<Identifier, Callable>

    constructor (src: string)
      ensures this.src == src && ids == map[] && funcIds == map[]
    {
      this.src := src;
      ids := map[];
      funcIds := map[];
    }

    function State(): Tables
      reads this
    {
      Tables(ids, funcIds)
    }

    /** `create_identifier`. */
    method CreateIdentifier(name: Option<string>) returns (r: Result<Identifier, ResolveError>)
      modifies this
      ensures var b := Bind(old(ids), name);
        && (b.Ok? ==> r == Ok(b.value.ident) && ids == b.value.ids)
        && (b.Err? ==> r == Err(b.error) && ids == old(ids))
      ensures funcIds == old(funcIds)
    {
      if name.None? {
        return Err(MissingName);
      }
      if name.value in ids {
        return Err(AlreadyBound(name.value));
      }
      var ident := Identifier(|ids|);
      ids := ids[name.value := ident];
      return Ok(ident);
    }

    /** `create_or_shadow_ident_opt`. */
    method CreateOrShadowIdentOpt(name: Option<string>) returns (r: Option<Identifier>)
      modifies this
      ensures (r, ids) == ShadowOpt(old(ids), name)
      ensures funcIds == old(funcIds)
    {
      if name.None? {
        return None;
      }
      var len := |ids|;
      if name.value !in ids {
        ids := ids[name.value := Identifier(len)];
      }
      return Some(ids[name.value]);
    }

    /** `create_or_shadow_ident`: the name is the text of a span. */
    method CreateOrShadowIdent(span: L.Span) returns (r: Result<Identifier, ResolveError>)
      modifies this
      ensures var t := Text(src, span);
        && (t.Err? ==> r == Err(t.error) && ids == old(ids))
        && (t.Ok? ==> var b := Shadow(old(ids), t.value); r == Ok(b.ident) && ids == b.ids)
      ensures funcIds == old(funcIds)
    {
      var name :- Text(src, span);
      var len := |ids|;
      if name !in ids {
        ids := ids[name := Identifier(len)];
      }
      return Ok(ids[name]);
    }

    /**
     * `parse_behaviour`. Where the source panics the method returns the
     * error and the tables are left as they happen to be.
     */
    method ParseBehaviour(line: nat, b: A.Behaviour, expr: Option<A.Expr>)
      returns (r: Result<Option<DecoratedStmt>, ResolveError>)
      modifies this
      decreases b
      ensures var s := ResolveBehaviour(line, b, expr, old(State()), src);
        && (s.Ok? <==> r.Ok?)
        && (s.Ok? ==> r.value == s.value.stmt && State() == s.value.tables)
        && (s.Err? ==> r.error == s.error)
    {
      match b
      case Assign(target, _, value) =>
        if target.IdentTarget? || target.DiscardTarget? {
          r := ParseDefinition(line, target, value, expr);
        } else {
          if expr.None? {
            return Err(MissingExpr);
          }
          if !value.Ops? {
            return Err(OpsOnly);
          }
          var d :- ZipOpsWithExpr(expr.value, value.ops, ids, src);
          if target.GotoTarget? {
            return Ok(Some(GotoStmt(line, d)));
          }
          return Ok(Some(ReturnStmt(line, d)));
        }
      case StillIn(_, ident, inner) =>
        var name :- Text(src, ident);
        if name !in ids {
          return Err(UnboundName(name));
        }
        var f := ids[name];
        var ret :- ParseBehaviour(line, inner, expr);
        if ret.None? {
          return Err(NoStatement);
        }
        if f !in funcIds {
          return Err(NotAFunction(name));
        }
        match funcIds[f] {
          case ExternFunction(_, n, _) =>
            return Err(ExternBody(n));
          case FuncBlock(decl, block) =>
            funcIds := funcIds[f := FuncBlock(decl, block + [ret.value])];
            return Ok(ret);
        }
      case Cond(_, cond, inner) =>
        var name :- Text(src, cond);
        if name !in ids {
          return Err(UnboundName(name));
        }
        r := ParseBehaviour(line, inner, expr);
    }

    /** The definition arm of `parse_behaviour` (targets that are a name or `yeet`). */
    method ParseDefinition(line: nat, target: A.AssignTarget, value: A.AssignValue, expr: Option<A.Expr>)
      returns (r: Result<Option<DecoratedStmt>, ResolveError>)
      requires target.IdentTarget? || target.DiscardTarget?
      modifies this
      ensures var s := ResolveDefinition(line, target, value, expr, old(State()), src);
        && (s.Ok? <==> r.Ok?)
        && (s.Ok? ==> r.value == s.value.stmt && State() == s.value.tables)
        && (s.Err? ==> r.error == s.error)
    {
      var id :- TargetName(src, target);
      match value
      case NumberValue(_, _) =>
        r := DefineNumber(line, target, value, expr, id);
      case NotHereValue(_) =>
        r := DefineNotHere(line, target, value, expr, id);
      case Ops(_) =>
        r := DefineOps(line, target, value, expr, id);
      case FnValue(_) =>
        r := DefineFn(line, target, value, expr, id);
    }

    /** The number arm of `parse_behaviour`. */
    method DefineNumber(line: nat, target: A.AssignTarget, value: A.AssignValue, expr: Option<A.Expr>, id: Option<string>)
      returns (r: Result<Option<DecoratedStmt>, ResolveError>)
      requires (target.IdentTarget? || target.DiscardTarget?) && value.NumberValue?
      requires TargetName(src, target) == Ok(id)
      modifies this
      ensures var s := ResolveDefinition(line, target, value, expr, old(State()), src);
        && (s.Ok? <==> r.Ok?)
        && (s.Ok? ==> r.value == s.value.stmt && State() == s.value.tables)
        && (s.Err? ==> r.error == s.error)
    {
      var ident :- CreateIdentifier(id);
      return Ok(Some(LoadLiteralNumber(line, ident, value.n)));
    }

    /** The `not here` arm of `parse_behaviour`. */
    method DefineNotHere(line: nat, target: A.AssignTarget, value: A.AssignValue, expr: Option<A.Expr>, id: Option<string>)
      returns (r: Result<Option<DecoratedStmt>, ResolveError>)
      requires (target.IdentTarget? || target.DiscardTarget?) && value.NotHereValue?
      requires TargetName(src, target) == Ok(id)
      modifies this
      ensures var s := ResolveDefinition(line, target, value, expr, old(State()), src);
        && (s.Ok? <==> r.Ok?)
        && (s.Ok? ==> r.value == s.value.stmt && State() == s.value.tables)
        && (s.Err? ==> r.error == s.error)
    {
      var ident :- CreateIdentifier(id);
      funcIds := funcIds[ident := ExternFunction(line, id.value, ident)];
      return Ok(None);
    }

    /** The operator-chain arm of `parse_behaviour`. */
    method DefineOps(line: nat, target: A.AssignTarget, value: A.AssignValue, expr: Option<A.Expr>, id: Option<string>)
      returns (r: Result<Option<DecoratedStmt>, ResolveError>)
      requires (target.IdentTarget? || target.DiscardTarget?) && value.Ops?
      requires TargetName(src, target) == Ok(id)
      modifies this
      ensures var s := ResolveDefinition(line, target, value, expr, old(State()), src);
        && (s.Ok? <==> r.Ok?)
        && (s.Ok? ==> r.value == s.value.stmt && State() == s.value.tables)
        && (s.Err? ==> r.error == s.error)
    {
      var ident := CreateOrShadowIdentOpt(id);
      if expr.None? {
        return Err(MissingExpr);
      }
      var d :- ZipOpsWithExpr(expr.value, value.ops, ids, src);
      return Ok(Some(Assignment(line, ident, d)));
    }

    /** The `with` arm of `parse_behaviour`. */
    method DefineFn(line: nat, target: A.AssignTarget, value: A.AssignValue, expr: Option<A.Expr>, id: Option<string>)
      returns (r: Result<Option<DecoratedStmt>, ResolveError>)
      requires (target.IdentTarget? || target.DiscardTarget?) && value.FnValue?
      requires TargetName(src, target) == Ok(id)
      modifies this
      ensures var s := ResolveDefinition(line, target, value, expr, old(State()), src);
        && (s.Ok? <==> r.Ok?)
        && (s.Ok? ==> r.value == s.value.stmt && State() == s.value.tables)
        && (s.Err? ==> r.error == s.error)
    {
      var f := value.func;
      var ident :- CreateIdentifier(id);
      var p1 :- CreateOrShadowIdent(f.params.p1);
      var p2Name :- OptText(src, f.params.p2);
      var p2 := CreateOrShadowIdentOpt(p2Name);
      var block: seq<DecoratedStmt> := [];
      if expr.Some? {
        var d :- ZipOpsWithExpr(expr.value, f.ops, ids, src);
        block := block + [Assignment(line, None, d)];
        assert block == [Assignment(line, None, d)];
      }
      assert FnBody(line, expr, f.ops, ids, src) == Ok(block);
      funcIds := funcIds[ident := FuncBlock(FuncDecl(line, ident, p1, p2), block)];
      return Ok(None);
    }
  }

  // ---------------------------------------------------------------------
  // Resolving a program

  /** The statements emitted so far and the tables after them. */
  datatype Pass = Pass(out: seq<DecoratedStmt>, tables: Tables)

  const Empty := Tables(map[], map[])

  /** The statement a behaviour yields, as a list of at most one. */
  function Emitted(s: Option<DecoratedStmt>): (r: seq<DecoratedStmt>)
    ensures |r| <= 1 && (r == [] <==> s.None?) && (s.Some? ==> r[0] == s.value)
  {
    if s.Some? then [s.value] else []
  }

  /**
   * The loop of `parse`, statement by statement from empty tables: each
   * statement's behaviour is resolved against the tables left by those
   * before it, and the statement it yields, if any, is emitted.
   */
  function Resolve(stmts: seq<A.Stmt>, src: string): (r: Result<Pass, ResolveError>)
    ensures r.Ok? ==> |r.value.out| <= |stmts|
    ensures |stmts| == 0 ==> r == Ok(Pass([], Empty))
  {
    if |stmts| == 0 then Ok(Pass([], Empty))
    else
      var p :- Resolve(stmts[..|stmts| - 1], src);
      var s := stmts[|stmts| - 1];
      var r :- ResolveBehaviour(s.line, s.behaviour, s.expr, p.tables, src);
      Ok(Pass(p.out + Emitted(r.stmt), r.tables))
  }

  /** One more statement: `Resolve` on a longer prefix, from its value on the shorter one. */
  lemma {:induction false} ResolveStep(stmts: seq<A.Stmt>, i: nat, src: string, p: Pass)
    requires i < |stmts| && Resolve(stmts[..i], src) == Ok(p)
    ensures var r := ResolveBehaviour(stmts[i].line, stmts[i].behaviour, stmts[i].expr, p.tables, src);
      && (r.Err? ==> Resolve(stmts[..i + 1], src) == Err(r.error))
      && (r.Ok? ==> Resolve(stmts[..i + 1], src) == Ok(Pass(p.out + Emitted(r.value.stmt), r.value.tables)))
  {
    assert stmts[..i + 1][..i] == stmts[..i];
  }

  /** Once a prefix of the program fails, the whole program fails. */
  lemma {:induction false} ResolveFailsOnward(stmts: seq<A.Stmt>, n: nat, src: string)
    requires n <= |stmts| && Resolve(stmts[..n], src).Err?
    ensures Resolve(stmts, src).Err?
    decreases |stmts| - n
  {
    if n < |stmts| {
      assert stmts[..n + 1][..n] == stmts[..n];
      ResolveFailsOnward(stmts, n + 1, src);
    } else {
      assert stmts[..n] == stmts;
    }
  }

  /** The tables after any program that resolves keep the invariant. */
  lemma {:induction false} ResolveInv(stmts: seq<A.Stmt>, src: string)
    ensures Resolve(stmts, src).Ok? ==> Inv(Resolve(stmts, src).value.tables)
  {
    if |stmts| > 0 && Resolve(stmts, src).Ok? {
      var pre := stmts[..|stmts| - 1];
      ResolveInv(pre, src);
      var s := stmts[|stmts| - 1];
      BehaviourKeepsInv(s.line, s.behaviour, s.expr, Resolve(pre, src).value.tables, src);
    }
  }

  /** Statements written on strictly increasing lines. */
  predicate Increasing(stmts: seq<A.Stmt>) {
    forall i, j :: 0 <= i < j < |stmts| ==> stmts[i].line < stmts[j].line
  }

  /** Each emitted statement carries the line of one of the program's statements. */
  predicate LinesFrom(out: seq<DecoratedStmt>, stmts: seq<A.Stmt>) {
    forall j :: 0 <= j < |out| ==> exists i :: 0 <= i < |stmts| && stmts[i].line == LineNumber(out[j])
  }

  /** Emitted statements on strictly increasing lines. */
  predicate Ordered(out: seq<DecoratedStmt>) {
    forall i, j :: 0 <= i < j < |out| ==> LineNumber(out[i]) < LineNumber(out[j])
  }

  lemma {:induction false} LinesAppend(stmts: seq<A.Stmt>, out: seq<DecoratedStmt>, e: seq<DecoratedStmt>)
    requires |stmts| > 0
    requires LinesFrom(out, stmts[..|stmts| - 1])
    requires Increasing(stmts[..|stmts| - 1]) ==> Ordered(out)
    requires |e| <= 1 && forall j :: 0 <= j < |e| ==> LineNumber(e[j]) == stmts[|stmts| - 1].line
    ensures LinesFrom(out + e, stmts)
    ensures Increasing(stmts) ==> Ordered(out + e)
  {
    var n := |stmts| - 1;
    var pre := stmts[..n];
    var all := out + e;
    forall j | 0 <= j < |all|
      ensures exists i :: 0 <= i < |stmts| && stmts[i].line == LineNumber(all[j])
    {
      if j < |out| {
        var i :| 0 <= i < |pre| && pre[i].line == LineNumber(out[j]);
        assert stmts[i] == pre[i];
      } else {
        assert stmts[n].line == LineNumber(all[j]);
      }
    }
    assert LinesFrom(all, stmts);
    if Increasing(stmts) {
      assert Increasing(pre) by {
        forall i, j | 0 <= i < j < |pre|
          ensures pre[i].line < pre[j].line
        {
          assert pre[i] == stmts[i] && pre[j] == stmts[j];
        }
      }
      forall i, j | 0 <= i < j < |all|
        ensures LineNumber(all[i]) < LineNumber(all[j])
      {
        if j >= |out| {
          assert all[i] == out[i] && all[j] == e[0];
          var k :| 0 <= k < |pre| && pre[k].line == LineNumber(out[i]);
          assert stmts[k] == pre[k] && k < n;
        } else {
          assert all[i] == out[i] && all[j] == out[j];
        }
      }
    }
  }

  /**
   * Resolution keeps the order of lines: each emitted statement carries
   * the line of a statement of the program, and when the program's lines
   * increase, so do the emitted ones.
   */
  lemma {:induction false} ResolveLines(stmts: seq<A.Stmt>, src: string)
    ensures var r := Resolve(stmts, src);
      r.Ok? ==> LinesFrom(r.value.out, stmts) && (Increasing(stmts) ==> Ordered(r.value.out))
  {
    var r := Resolve(stmts, src);
    if |stmts| > 0 && r.Ok? {
      var pre := stmts[..|stmts| - 1];
      ResolveLines(pre, src);
      var p := Resolve(pre, src).value;
      var s := stmts[|stmts| - 1];
      ResolvedStatement(s.line, s.behaviour, s.expr, p.tables, src);
      LinesAppend(stmts, p.out, Emitted(ResolveBehaviour(s.line, s.behaviour, s.expr, p.tables, src).value.stmt));
    }
  }

  /**
   * From tokens to resolved statements: the statements the parser reads
   * are numbered on increasing lines, so the statements the resolver
   * emits for them come out on increasing lines too.
   */
  lemma {:induction false} ProgramResolvesInOrder(ts: seq<L.Lexeme>, src: string)
    requires A.Program(ts, 0, 1).Ok?
    ensures var r := Resolve(A.Program(ts, 0, 1).value, src);
      r.Ok? ==> Ordered(r.value.out)
  {
    A.ProgramLines(ts, 0, 1);
    ResolveLines(A.Program(ts, 0, 1).value, src);
  }

  /** A source text in which the example below writes `fib`, `n` and `one`, as in `fib n one`. */
  predicate FibSource(src: string) {
    Text(src, L.Span(0, 3)) == Ok("fib") && Text(src, L.Span(4, 5)) == Ok("n") && Text(src, L.Span(6, 9)) == Ok("one")
  }

  /** `// fib is with n` records a function with one parameter and an empty body. */
  lemma {:induction false} FibDefinition(src: string, sp: L.Span)
    requires FibSource(src)
    ensures var def := A.Assign(A.IdentTarget(L.Span(0, 3)), sp, A.FnValue(A.Fn(sp, A.FnParams(L.Span(4, 5), None, None), [])));
      ResolveBehaviour(1, def, None, Empty, src)
        == Ok(Resolved(None, Tables(map["fib" := Identifier(0), "n" := Identifier(1)],
                                    map[Identifier(0) := FuncBlock(FuncDecl(1, Identifier(0), Identifier(1), None), [])])))
  {
  }

  /** `// still in fib one is 1` then loads the literal and appends the load to the body of `fib`. */
  lemma {:induction false} FibStillIn(src: string, sp: L.Span)
    requires FibSource(src)
    ensures var decl := FuncDecl(1, Identifier(0), Identifier(1), None);
      var t := Tables(map["fib" := Identifier(0), "n" := Identifier(1)], map[Identifier(0) := FuncBlock(decl, [])]);
      var load := LoadLiteralNumber(2, Identifier(2), 1);
      ResolveBehaviour(2, A.StillIn(sp, L.Span(0, 3), A.Assign(A.IdentTarget(L.Span(6, 9)), sp, A.NumberValue(sp, 1))), None, t, src)
        == Ok(Resolved(Some(load), Tables(t.ids["one" := Identifier(2)], map[Identifier(0) := FuncBlock(decl, [load])])))
  {
    var ids := map["fib" := Identifier(0), "n" := Identifier(1)];
    assert ids.Keys == {"fib", "n"} && |ids| == 2 && "one" !in ids;
    var decl := FuncDecl(1, Identifier(0), Identifier(1), None);
    var t := Tables(ids, map[Identifier(0) := FuncBlock(decl, [])]);
    var load := LoadLiteralNumber(2, Identifier(2), 1);
    assert ResolveBehaviour(2, A.Assign(A.IdentTarget(L.Span(6, 9)), sp, A.NumberValue(sp, 1)), None, t, src)
      == Ok(Resolved(Some(load), Tables(ids["one" := Identifier(2)], t.funcIds)));
    assert [] + [load] == [load];
    assert t.funcIds[Identifier(0) := FuncBlock(decl, [load])] == map[Identifier(0) := FuncBlock(decl, [load])];
  }

  /**
   * `// fib is with n` then `// still in fib one is 1`: the function is
   * recorded under the first identifier with its parameter, and the
   * literal load is both emitted and appended to its body.
   */
  lemma {:induction false} StillInExample(src: string, sp: L.Span)
    requires FibSource(src)
    ensures var def := A.Assign(A.IdentTarget(L.Span(0, 3)), sp, A.FnValue(A.Fn(sp, A.FnParams(L.Span(4, 5), None, None), [])));
      var body := A.StillIn(sp, L.Span(0, 3), A.Assign(A.IdentTarget(L.Span(6, 9)), sp, A.NumberValue(sp, 1)));
      var load := LoadLiteralNumber(2, Identifier(2), 1);
      Resolve([A.Stmt(1, None, sp, def), A.Stmt(2, None, sp, body)], src)
        == Ok(Pass([load], Tables(map["fib" := Identifier(0), "n" := Identifier(1), "one" := Identifier(2)],
                                  map[Identifier(0) := FuncBlock(FuncDecl(1, Identifier(0), Identifier(1), None), [load])])))
  {
    var def := A.Assign(A.IdentTarget(L.Span(0, 3)), sp, A.FnValue(A.Fn(sp, A.FnParams(L.Span(4, 5), None, None), [])));
    var stmts := [A.Stmt(1, None, sp, def), A.Stmt(2, None, sp, A.StillIn(sp, L.Span(0, 3), A.Assign(A.IdentTarget(L.Span(6, 9)), sp, A.NumberValue(sp, 1))))];
    FibSecond(src, sp, stmts);
    assert stmts[..2] == stmts;
  }

  /** The second statement of that example, after the first. */
  lemma {:induction false} FibSecond(src: string, sp: L.Span, stmts: seq<A.Stmt>)
    requires FibSource(src)
    requires |stmts| == 2
    requires stmts[0] == A.Stmt(1, None, sp, A.Assign(A.IdentTarget(L.Span(0, 3)), sp, A.FnValue(A.Fn(sp, A.FnParams(L.Span(4, 5), None, None), []))))
    requires stmts[1] == A.Stmt(2, None, sp, A.StillIn(sp, L.Span(0, 3), A.Assign(A.IdentTarget(L.Span(6, 9)), sp, A.NumberValue(sp, 1))))
    ensures var load := LoadLiteralNumber(2, Identifier(2), 1);
      Resolve(stmts[..2], src)
        == Ok(Pass([load], Tables(map["fib" := Identifier(0), "n" := Identifier(1), "one" := Identifier(2)],
                                  map[Identifier(0) := FuncBlock(FuncDecl(1, Identifier(0), Identifier(1), None), [load])])))
  {
    var t := FibFirst(src, sp, stmts);
    FibStillIn(src, sp);
    ResolveStep(stmts, 1, src, Pass([], t));
    assert map["fib" := Identifier(0), "n" := Identifier(1)]["one" := Identifier(2)]
      == map["fib" := Identifier(0), "n" := Identifier(1), "one" := Identifier(2)];
  }

  /** The first statement of that example on its own. */
  lemma {:induction false} FibFirst(src: string, sp: L.Span, stmts: seq<A.Stmt>) returns (t: Tables)
    requires FibSource(src)
    requires |stmts| == 2
    requires stmts[0] == A.Stmt(1, None, sp, A.Assign(A.IdentTarget(L.Span(0, 3)), sp, A.FnValue(A.Fn(sp, A.FnParams(L.Span(4, 5), None, None), []))))
    ensures t == Tables(map["fib" := Identifier(0), "n" := Identifier(1)],
                        map[Identifier(0) := FuncBlock(FuncDecl(1, Identifier(0), Identifier(1), None), [])])
    ensures Resolve(stmts[..1], src) == Ok(Pass([], t))
  {
    t := Tables(map["fib" := Identifier(0), "n" := Identifier(1)],
                map[Identifier(0) := FuncBlock(FuncDecl(1, Identifier(0), Identifier(1), None), [])]);
    FibDefinition(src, sp);
    assert stmts[..0] == [];
    ResolveStep(stmts, 0, src, Pass([], Empty));
  }

  /** A second definition of a name by number is rejected. */
  lemma {:induction false} RedefinitionRejected(src: string, sp: L.Span)
    requires src == "x"
    ensures var def := (n: nat) => A.Assign(A.IdentTarget(L.Span(0, 1)), sp, A.NumberValue(sp, n));
      Resolve([A.Stmt(1, None, sp, def(5)), A.Stmt(2, None, sp, def(6))], src) == Err(AlreadyBound("x"))
  {
    assert src[0..1] == "x";
    var def := (n: nat) => A.Assign(A.IdentTarget(L.Span(0, 1)), sp, A.NumberValue(sp, n));
    var stmts := [A.Stmt(1, None, sp, def(5)), A.Stmt(2, None, sp, def(6))];
    var t := Tables(map["x" := Identifier(0)], map[]);
    assert Text(src, L.Span(0, 1)) == Ok("x");
    assert ResolveDefinition(1, def(5).target, def(5).value, None, Empty, src)
      == Ok(Resolved(Some(LoadLiteralNumber(1, Identifier(0), 5)), t));
    assert stmts[..0] == [];
    ResolveStep(stmts, 0, src, Pass([], Empty));
    assert [] + [LoadLiteralNumber(1, Identifier(0), 5)] == [LoadLiteralNumber(1, Identifier(0), 5)];
    ResolveStep(stmts, 1, src, Pass([LoadLiteralNumber(1, Identifier(0), 5)], t));
    assert stmts[..2] == stmts;
  }

  /** The function blocks and external functions a program defines, as statements. */
  predicate Appended(tail: seq<DecoratedStmt>, funcIds: map<Identifier, Callable>) {
    && |tail| == |funcIds|
    && (forall k :: k in funcIds ==> CallableStmt(funcIds[k]) in tail)
    && (forall j :: 0 <= j < |tail| ==> tail[j].CallableStmt? && tail[j].callable in funcIds.Values)
    && (forall i, j :: 0 <= i < j < |tail| ==> tail[i] != tail[j])
  }

  /**
   * `parse`: the statements yielded by the program's behaviours, in
   * order, followed by one statement per defined function, in an order
   * the model leaves open.
   */
  method Parse(stmts: seq<A.Stmt>, src: string) returns (r: Result<seq<DecoratedStmt>, ResolveError>)
    ensures r.Ok? <==> Resolve(stmts, src).Ok?
    ensures r.Ok? ==>
      var p := Resolve(stmts, src).value;
      && |p.out| <= |r.value|
      && r.value[..|p.out|] == p.out
      && Appended(r.value[|p.out|..], p.tables.funcIds)
  {
    var outp: seq<DecoratedStmt> := [];
    var res := new Resolver(src);
    for i := 0 to |stmts|
      invariant res.src == src
      invariant Resolve(stmts[..i], src) == Ok(Pass(outp, res.State()))
    {
      ResolveStep(stmts, i, src, Pass(outp, res.State()));
      var val := res.ParseBehaviour(stmts[i].line, stmts[i].behaviour, stmts[i].expr);
      if val.Err? {
        ResolveFailsOnward(stmts, i + 1, src);
        return Err(val.error);
      }
      outp := outp + Emitted(val.value);
    }
    assert stmts[..|stmts|] == stmts;
    ResolveInv(stmts, src);
    var tail := Values(res.funcIds);
    r := Ok(outp + tail);
    assert r.value[..|outp|] == outp;
    assert r.value[|outp|..] == tail;
  }

  /** `into_values().map(Callable)`: every function once, in some order. */
  method Values(funcIds: map<Identifier, Callable>) returns (tail: seq<DecoratedStmt>)
    requires forall k :: k in funcIds ==> KeyOf(funcIds[k]) == k
    ensures Appended(tail, funcIds)
  {
    tail := [];
    var left := funcIds.Keys;
    while left != {}
      invariant left <= funcIds.Keys
      invariant |tail| + |left| == |funcIds|
      invariant forall k :: k in funcIds && k !in left ==> CallableStmt(funcIds[k]) in tail
      invariant forall j :: 0 <= j < |tail| ==>
        && tail[j].CallableStmt? && KeyOf(tail[j].callable) in funcIds
        && KeyOf(tail[j].callable) !in left && funcIds[KeyOf(tail[j].callable)] == tail[j].callable
      invariant forall i, j :: 0 <= i < j < |tail| ==> tail[i] != tail[j]
      decreases |left|
    {
      var k :| k in left;
      tail := tail + [CallableStmt(funcIds[k])];
      left := left - {k};
    }
  }
}
