# beatsaber front end and runtime, in Dafny

This project models the front end of the `beatsaber` compiler for the language
of the same name, together with the runtime library that compiled programs call.
Programs in the language are written as lines of the form
`expression // behaviour`, for example `n.two // still in fib cond is less`.

- `lexer.dfy` (module `Lexer`) is the token table of `src/lexer.rs`, written as
  a tokenizer from source text to lexemes (a token with its span). At each
  position the longest match wins. When a keyword and the identifier pattern
  match the same text, the keyword wins. Blanks and `*` comments produce
  nothing, and a character no rule matches becomes one `Error` lexeme.
- `ast1.dfy` (module `Ast1`) is the recursive-descent parser of `src/ast1.rs`,
  running over a token cursor (the token list and a position).
  - `parse` and `parse_ops` are loops; they are methods proved equal to the
    recursive functions `Program` and `OpsChain`.
  - The other parse routines are functions that return the value read and the
    next position.
  - A panic of the parser is an `Err` result.
  - The line counter goes up on every pass of the top-level loop, including
    lone `Newline`s. A `Newline` taken by `parse_ops` at the end of an open
    chain is not counted.
  - The lemmas state which tokens each routine reads (soundness against an
    unparser). For expressions they also state the converse: the parser reads
    back every right-nested expression tree.
- `ast2.dfy` (module `Ast2`) is the name resolver of `src/ast2.rs`.
  - The two hash maps that `parse` threads through `parse_behaviour` are the
    fields of the class `Resolver`. They are the table from names to numeric
    identifiers and the table from identifiers to functions.
  - Its methods are proved against the pure functions `Bind`, `Shadow`,
    `ShadowOpt`, `ResolveDefinition` and `ResolveBehaviour`.
  - `zip_ops_with_expr` is the pure function `ZipOpsWithExpr`.
  - `parse` is the method `Ast2.Parse`, proved against the left fold `Resolve`.
  - A panic of the resolver is an `Err` result naming the cause.
- `runtime.dfy` (module `Runtime`) holds the `uint64_t` primitives of `stdlib.c`.
  A word is an integer in [0, 2^64). Carries and borrows out of bit 63 are
  dropped, and the bitwise operators are defined bit by bit.
- `wrappers.dfy` (module `Wrappers`) holds `Option` and `Result`.

The shown files do not agree on two token names, and the model reads them this way:
- The token table calls the `//` token `ExpressionStart`, while the parser calls
  it `BehaviourStart`. The model has one token, `BehaviourStart`, that the
  lexer produces for `//`.
- The parser's `parse_fn` looks for an `And` token between two parameters. No
  rule of the token table produces it, so `And` is a token kind that the lexer
  never emits.
- The cursor type `Lexer` with its `peek`, `next` and `monch` is not part of
  this model. `monch(k)` is taken to mean "consume a token of kind `k` and
  return its span, or fail" (`Ast1.Monch`).

## Model

| member | source | states |
|---|---|---|
| Runtime.Add | stdlib.c:4-6 | `add(a,b)` is `(a+b) mod 2^64` |
| Runtime.Sub | stdlib.c:8-10 | `sub(a,b)` is `(a-b) mod 2^64` |
| Runtime.Less | stdlib.c:12-14 | `less` is 0 or 1, and 1 exactly when `a < b` |
| Runtime.Equal | stdlib.c:20-22 | `equal` is 0 or 1, and 1 exactly when `x == y` |
| Runtime.BNot | stdlib.c:24-26 | `bnot(x)` is `2^64-1-x`, and each of its 64 bits is the flipped bit of `x` |
| Runtime.Not | stdlib.c:28-30 | `not(x)` is 0 or 1, and 1 exactly when `x == 0` |
| Runtime.And | stdlib.c:32-34 | each bit of `and(x,y)` is the conjunction of the bits of `x` and `y` |
| Runtime.Or | stdlib.c:36-38 | each bit of `or(x,y)` is the disjunction of the bits |
| Runtime.Xor | stdlib.c:40-42 | each bit of `xor(x,y)` is set exactly when the bits differ |
| Runtime.AddZero | stdlib.c:4-6 | `add(a,0) == a` |
| Runtime.SubSelf | stdlib.c:8-10 | `sub(a,a) == 0` |
| Runtime.AddThenSub | stdlib.c:4-10 | `sub(add(a,b),b) == a`, wrap-around included |
| Runtime.BNotInvolutive | stdlib.c:24-26 | `bnot(bnot(x)) == x` |
| Runtime.OrComplementIsAllOnes | stdlib.c:24-38 | `or(x, bnot(x))` is all ones |
| Runtime.NotNotIsBoolean | stdlib.c:28-30 | `not(not(x))` is 0 or 1, and 1 exactly when `x != 0` |
| Runtime.BitwiseCommutative | stdlib.c:32-42 | `and`, `or` and `xor` are commutative |
| Runtime.XorSelf | stdlib.c:40-42 | `xor(x,x) == 0` |
| Runtime.Examples | stdlib.c:4-26 | sample values, among them `add(2^64-1, 1) == 0` and `sub(3,5) == 2^64-2` |
| Runtime.AndExample | stdlib.c:32-34 | `and(0b1100, 0b1010) == 0b1000` |
| Runtime.XorExample | stdlib.c:40-42 | `xor(0b1100, 0b1010) == 0b0110` |
| Lexer.Scan | src/lexer.rs:4-42 | each step of the tokenizer consumes at least one character and stays within the text |
| Lexer.ScanMatches | src/lexer.rs:4-42 | the text of every emitted token is a text its rule accepts |
| Lexer.KeywordMatches | src/lexer.rs:9-24 | each keyword's text is accepted by the rule of the token it is given |
| Lexer.LexFrom | src/lexer.rs:4-42 | the lexemes from a position on; each covers at least one character, so there are at most as many as characters left |
| Lexer.Lex | src/lexer.rs:4-42 | the lexemes of the whole text, at most one per character |
| Lexer.LexFromStartsAfter | src/lexer.rs:4-42 | every lexeme produced from position `i` starts at or after `i` |
| Lexer.LexCovers | src/lexer.rs:4-42 | the lexemes come in order, each one's text matches its token, and only blanks and comments lie between them |
| Lexer.LexWord | src/lexer.rs:9-34 | a whole word lexes as its keyword if it is one, and as `Identifier` otherwise |
| Lexer.LexKeyword | src/lexer.rs:9-24 | `is`, `then`, `with`, `if`, `goto`, `return`, `yeet` and `fuckall` lex as their keyword, never as `Identifier` |
| Lexer.LexIdentifier | src/lexer.rs:33-34 | a non-keyword word is one `Identifier` spanning the whole word |
| Lexer.LexPhrase | src/lexer.rs:21-30 | `not here` and `still in` are single tokens that include the space |
| Lexer.LexBlank | src/lexer.rs:38 | space, tab and CR produce nothing |
| Lexer.LexNewline | src/lexer.rs:31-32 | `\n` and form feed each produce one `Newline` |
| Lexer.LexComment | src/lexer.rs:39 | a `*` comment runs to the end of the line and is skipped, and the newline after it is still a `Newline` |
| Lexer.LexNumber | src/lexer.rs:35-36 | a run of digits is one `Number` carrying its decimal value |
| Lexer.LexDots | src/lexer.rs:5-6 | `..` is two `Operator` tokens |
| Lexer.LexDot | src/lexer.rs:5-6 | a `.` is one `Operator` lexeme |
| Lexer.LexSlashes | src/lexer.rs:7-8 | `//` is one token |
| Lexer.SimpleLex | src/lexer.rs:49-64 | the lexemes of `a. // yeet is increment\n`, in the order and with the tokens the `simple_lex` test asserts |
| Lexer.SimpleLexTexts | src/lexer.rs:50-62 | the texts that test asserts for those lexemes, `a`, `//`, `yeet`, `is` and `increment`, and what separates them |
| Lexer.SimpleLexHead | src/lexer.rs:50-54 | the lexemes of that line before the `//`: `a`, then `.` |
| Lexer.SimpleLexFromSlashes | src/lexer.rs:55-63 | the lexemes of that line from the `//` on |
| Lexer.SimpleLexFromYeet | src/lexer.rs:57-63 | the lexemes of that line from `yeet` on |
| Lexer.SimpleLexFromIs | src/lexer.rs:59-63 | the lexemes of that line from `is` on |
| Lexer.SimpleLexFromIncrement | src/lexer.rs:61-63 | the lexemes of that line from `increment` on |
| Ast1.Monch | src/ast1.rs:108 | succeeds exactly on a token of the requested kind, returns its span and moves one token on |
| Ast1.ParseExpr | src/ast1.rs:124-153 | a parsed expression consumes at least one token and stays within the input |
| Ast1.ParseExprInner | src/ast1.rs:125-138 | the operator loop never moves backwards or past the input |
| Ast1.ParseExprSound | src/ast1.rs:124-153 | the tokens read are exactly the unparsed expression, and the tree is right-nested (binary chains nest to the right) |
| Ast1.ParseExprInnerSound | src/ast1.rs:125-138 | what the operator loop reads is appended to the tokens of the operand it started from |
| Ast1.InnerStops | src/ast1.rs:136 | at a token other than `.` the loop returns the operand unchanged |
| Ast1.InnerUnaryThenMore | src/ast1.rs:131 | a `.` followed by `.` makes a unary operator and the loop continues |
| Ast1.InnerUnaryLast | src/ast1.rs:132 | a `.` followed by `)` or `//` makes a final unary operator |
| Ast1.InnerBinary | src/ast1.rs:133 | any other `.` makes a binary operator whose right side is the whole rest of the expression |
| Ast1.ExprIdent | src/ast1.rs:141 | an expression starting with a name continues with the operator loop after it |
| Ast1.ExprParen | src/ast1.rs:142-150 | a parenthesised expression needs its `)`, then continues with the operator loop |
| Ast1.InnerUnops | src/ast1.rs:128-132 | a run of dots before `)` or `//` becomes nested unary operators |
| Ast1.InnerBinop | src/ast1.rs:128-134 | dots, then a binary dot, then a right-nested expression are read back as that tree |
| Ast1.HeadParse | src/ast1.rs:140-150 | a name or a parenthesised expression is read back, then the operator loop runs |
| Ast1.BinopParse | src/ast1.rs:124-153 | a right-nested binary expression is read back exactly |
| Ast1.OperandParse | src/ast1.rs:124-153 | an operand (a name or a parenthesised expression under unary operators) is read back exactly |
| Ast1.ParseExprUnparse | src/ast1.rs:124-153 | round trip: every right-nested expression, written out and followed by `)` or `//`, parses back to itself and stops at its end |
| Ast1.OpsChain | src/ast1.rs:226-250 | the chain reader never moves backwards and consumes a token when there is one |
| Ast1.ParseOps | src/ast1.rs:226-250 | the loop of `parse_ops` computes `OpsChain` |
| Ast1.OpsChainSound | src/ast1.rs:226-250 | every op but the last has a `then`; the tokens read are the chain, plus one `Newline` when the chain ends open |
| Ast1.OpsChainFails | src/ast1.rs:246 | the chain fails only at a token that is neither a name nor a `Newline` |
| Ast1.ParseFn | src/ast1.rs:211-224 | the second parameter is present exactly when the `and` token is |
| Ast1.ParseFnSound | src/ast1.rs:211-224 | the tokens read are `with`, the parameters and the chain |
| Ast1.ParseAssignValue | src/ast1.rs:198-209 | a name gives `Ops`, `with` gives `Fn`, a number gives `Number` and `not here` gives `NotHere` |
| Ast1.ParseAssignValueSound | src/ast1.rs:198-209 | the tokens read are the written-out value; a number or `not here` is exactly one token |
| Ast1.ParseBehaviour | src/ast1.rs:155-196 | a parsed behaviour consumes at least one token and stays within the input |
| Ast1.ParseBehaviourSound | src/ast1.rs:155-196 | the tokens read are the written-out behaviour |
| Ast1.NestedBehaviourSound | src/ast1.rs:158-177 | the same, for `still in` and `if` |
| Ast1.AssignSound | src/ast1.rs:178-193 | the same, for a target, `is` and a value |
| Ast1.Program | src/ast1.rs:87-122 | a program has at most as many statements as tokens |
| Ast1.Parse | src/ast1.rs:87-122 | the loop of `parse` computes `Program` from line 1 |
| Ast1.ProgramLines | src/ast1.rs:89-120 | statement lines start at the first line number and strictly increase |
| Ast1.ProgramSound | src/ast1.rs:87-122 | the statements are laid out in the tokens in order, separated only by `Newline`s |
| Ast1.StepWithoutExpr | src/ast1.rs:95-105 | a `//` at the top level gives a statement without an expression on the current line |
| Ast1.StepWithExpr | src/ast1.rs:106-116 | a name or `(` at the top level gives an expression, which must be followed by `//` and a behaviour |
| Ast1.StmtStart | src/ast1.rs:95-116 | a statement has no expression exactly when it starts with `//`; otherwise `//` follows its expression |
| Ast1.ProgramRejects | src/ast1.rs:117 | any other token at the top level is rejected |
| Ast2.LineNumber | src/ast2.rs:99-111 | a statement's line is the line its unguarded form carries; a conditional, however deeply nested, has the line of the statement it finally guards |
| Ast2.ConditionalLine | src/ast2.rs:98-111 | a conditional's line number is that of the statement it guards, however deeply nested |
| Ast2.Text | src/ast2.rs:141 | slicing a span succeeds exactly when it lies within the source, and gives those characters |
| Ast2.Bind | src/ast2.rs:114-122 | fails when the name is absent or already bound; otherwise binds it to the identifier numbered by the table's size, and the table grows by exactly one |
| Ast2.Shadow | src/ast2.rs:129-132 | a bound name keeps its identifier and the table is unchanged; a new name is bound as `Bind` binds it |
| Ast2.ShadowOpt | src/ast2.rs:124-127 | no name leaves the table unchanged; a name is shadowed or bound |
| Ast2.BindKeepsDense | src/ast2.rs:114-122 | binding keeps the identifiers exactly `0..|ids|-1`, none used twice |
| Ast2.ShadowKeepsDense | src/ast2.rs:129-132 | the same for finding or binding a name |
| Ast2.ShadowOptKeepsDense | src/ast2.rs:124-127 | the same for an optional name; old bindings are kept |
| Ast2.Lookup | src/ast2.rs:290-293 | succeeds exactly for a bound name, giving its identifier |
| Ast2.ZipInner | src/ast2.rs:263-296 | on success it used the first `OpCount(e)` op names and returns the rest |
| Ast2.ZipOpsWithExpr | src/ast2.rs:262-303 | success needs exactly as many op names as operator nodes |
| Ast2.ZipInnerSound | src/ast2.rs:263-296 | the call tree has the expression's shape with parentheses dropped, and its calls in post-order are the op names in order |
| Ast2.ZipInnerComplete | src/ast2.rs:263-296 | with every name bound and enough op names, pairing succeeds |
| Ast2.ZipOpsWithExprSpec | src/ast2.rs:262-303 | succeeds exactly when op-name count equals operator count and every name is bound; the result calls the op names in post-order |
| Ast2.ZipFibonacci | src/ast2.rs:262-303 | `(n.one)..(n.two).` with `sub then fib then sub then fib then add` gives `add(fib(sub(n,one)), fib(sub(n,two)))` |
| Ast2.FibLookups | src/ast2.rs:290-293 | the names of that example resolve to their identifiers |
| Ast2.FibHalf | src/ast2.rs:265-289 | `(n.x).` with `sub then fib` gives `fib(sub(n,x))` |
| Ast2.OptText | src/ast2.rs:172 | an absent span gives no name; a present one is sliced |
| Ast2.FnBody | src/ast2.rs:182-184 | a function body is one anonymous assignment of the call tree, or empty without an expression |
| Ast2.DefinitionStatement | src/ast2.rs:136-191 | a definition yields a statement exactly for a number or an op chain, on its own line |
| Ast2.DefinitionSpec | src/ast2.rs:136-191 | number, `not here` and `with` need an unbound name and bind it to the next identifier; `yeet` fails there; `not here` records an external function; `with` records a block whose parameters and body are as `FnRecorded` says; an op chain fails without an expression, succeeds exactly when its call tree zips against the table that already holds the target, and assigns that tree (`OpsResolve`, `OpsAssigned`) |
| Ast2.DefinitionByNumber | src/ast2.rs:146-149 | a number needs a name that is not bound yet; the name table becomes the old one with it bound to the next identifier, the function table is unchanged, and the number is loaded into that identifier |
| Ast2.DefinitionByNotHere | src/ast2.rs:150-155 | `not here` needs an unbound name; the name table becomes the old one with it bound to the next identifier, and the only new function entry is an external function of that name under it |
| Ast2.DefinitionByFn | src/ast2.rs:167-189 | `with` needs an unbound name and binds it to the next identifier. The final name table is exactly the old one with that name bound, then the first and then the second parameter each bound to the following identifier unless already present (`FnRecorded`). Under the function's identifier it records a block on this line, and no other function changes. Its parameters are their names' identifiers in that table, and its body is the statement's call tree zipped against it, or empty without an expression |
| Ast2.DefinitionByOps | src/ast2.rs:156-166 | an op chain fails without an expression. It succeeds exactly when the call tree zips against the table in which the target was already found or bound. It then assigns that tree on its own line: to the target's identifier, or anonymously for `yeet`. A bound name keeps its binding, a new one gets the next identifier, and functions are untouched |
| Ast2.DefinitionKeepsInv | src/ast2.rs:136-191 | definitions keep the tables' invariant and every binding, and no function entry is lost, an external one staying as it is and a block only growing at its end (`Step`) |
| Ast2.FnDefinitionKeepsInv | src/ast2.rs:167-189 | the same for the `with` arm: the tables keep the invariant and every binding, and no function entry is lost, an external one staying as it is and a block only growing at its end (`Step`) |
| Ast2.AppendKeepsInv | src/ast2.rs:226-229 | appending a statement to a function's block keeps the invariant; the block only grows at its end |
| Ast2.BehaviourKeepsInv | src/ast2.rs:134-246 | every behaviour keeps the invariant; bindings are kept; functions are never replaced and blocks only grow at the end |
| Ast2.ResolvedStatement | src/ast2.rs:134-246 | a statement is yielded exactly when the behaviour yields one; it is never a `Conditional` and carries the statement's line |
| Ast2.AssignStatement | src/ast2.rs:136-213 | the same for an assignment: a definition or a `return`/`goto` |
| Ast2.ResolveDefinition | src/ast2.rs:136-191 | `yeet` is rejected as `MissingName` for anything but an op chain; on success the name table never shrinks and gains at most three names: a function and its two parameters |
| Ast2.ResolveJump | src/ast2.rs:192-213 | a jump succeeds only with an expression and an op chain, and then yields a statement and leaves both tables as they were |
| Ast2.ResolveBehaviour | src/ast2.rs:134-246 | on success, for every behaviour including nested `still in` and `if`, the name table never shrinks and gains at most three names |
| Ast2.JumpSpec | src/ast2.rs:192-213 | `return`/`goto` fail without an expression or with a non-chain value; otherwise they resolve against the current names and change no table |
| Ast2.CondSpec | src/ast2.rs:235-244 | `if c` fails unless `c` is bound, and is otherwise exactly its inner behaviour |
| Ast2.StillInSpec | src/ast2.rs:216-234 | `still in f` succeeds exactly when `f` is bound, the inner behaviour yields a statement and `f` is then a function block; the statement is appended to that block |
| Ast2.Resolver.constructor | src/ast2.rs:249-251 | both tables start empty |
| Ast2.Resolver.CreateIdentifier | src/ast2.rs:114-122 | updates the name table in place as `Bind` says |
| Ast2.Resolver.CreateOrShadowIdentOpt | src/ast2.rs:124-127 | updates the name table in place as `ShadowOpt` says |
| Ast2.Resolver.CreateOrShadowIdent | src/ast2.rs:129-132 | slices the span, then updates the name table as `Shadow` says |
| Ast2.Resolver.ParseBehaviour | src/ast2.rs:134-246 | returns what `ResolveBehaviour` yields and leaves the tables it computes |
| Ast2.Resolver.ParseDefinition | src/ast2.rs:136-191 | returns what `ResolveDefinition` yields and leaves the tables it computes |
| Ast2.Resolver.DefineNumber | src/ast2.rs:146-149 | the number arm: returns what `ResolveDefinition` yields and leaves the tables it computes |
| Ast2.Resolver.DefineNotHere | src/ast2.rs:150-155 | the `not here` arm, likewise |
| Ast2.Resolver.DefineOps | src/ast2.rs:156-166 | the op-chain arm, likewise |
| Ast2.Resolver.DefineFn | src/ast2.rs:167-189 | the `with` arm, likewise |
| Ast2.Resolve | src/ast2.rs:252-257 | emits at most one statement per statement of the program |
| Ast2.ResolveStep | src/ast2.rs:252-257 | one more statement resolves against the tables left by those before it |
| Ast2.ResolveFailsOnward | src/ast2.rs:252-257 | once a statement fails, the whole pass fails |
| Ast2.ResolveInv | src/ast2.rs:248-257 | after any program the tables keep the invariant |
| Ast2.ResolveLines | src/ast2.rs:252-257 | each emitted statement carries a program line, and increasing program lines give increasing emitted lines |
| Ast2.ProgramResolvesInOrder | src/ast2.rs:248-257 | parsed then resolved, statements come out on strictly increasing lines |
| Ast2.StillInExample | src/ast2.rs:216-233 | `// fib is with n` then `// still in fib one is 1`: the load is emitted and appended to the body of `fib` |
| Ast2.FibDefinition | src/ast2.rs:167-189 | `// fib is with n` records `fib` with parameter `n` and an empty body |
| Ast2.FibStillIn | src/ast2.rs:216-233 | `// still in fib one is 1` loads the literal and appends the load to the body of `fib` |
| Ast2.RedefinitionRejected | src/ast2.rs:114-118 | a second `x is <number>` fails, because `x` is already bound |
| Ast2.Parse | src/ast2.rs:248-260 | fails exactly when the pass fails; emits the resolved statements in order, then every defined function exactly once |
| Ast2.Values | src/ast2.rs:258 | lists every function of the table once, in some order |

## Left out

- `src/codegen.rs` is not part of this model. It is LLVM code generation through a foreign library.
- `src/bsc.rs` is not part of this model. It is the command-line driver and does file I/O.
- `deref` is left out. It reads raw memory through an integer address.
- `bsprint` is left out. It writes output through `printf`.
- Runtime: `uint64_t` is an integer in [0, 2^64) rather than a 64-bit bit-vector; wrap-around is written out.
- Lexer: the backtracking of the lexer generator behind `src/lexer.rs` is not modelled. The tokenizer dispatches on the first character and takes the longest match.
- Lexer: a lone `/` and any other unmatched character become one `Error` lexeme of length one.
- Lexer: digits are ASCII only.
- Lexer.LexNumber: the value is unbounded; the overflow of `usize` parsing is not modelled.
- Lexer: the `complex_lex` test is covered by the per-rule lemmas, not by one lemma over its whole text.
- Ast1: the `dbg!` output of `parse_expr_inner` is left out.
- Ast1.ParseExprUnparse: it is stated for expressions followed by `)` or `//`. The operator loop stops at any token other than `.`, but within a statement that parses, the token after an expression is always `)` or `//`.
- Ast2: slicing a span that is not on a character boundary panics in Rust. Source text is modelled as a sequence of characters, so only spans outside the text fail.
- Ast2: `ast2::parse` takes the source text as its second argument. The call in `src/bsc.rs` passes one argument; the model follows `src/ast2.rs`.
- Ast2: the panic messages are replaced by the `ResolveError` values.
- Ast2.Resolver.ParseBehaviour: on an error the tables are left unspecified, because the program aborts there.
- Ast2.Resolver.ParseDefinition: the same.
- Ast2.Resolver.DefineNumber: the same.
- Ast2.Resolver.DefineNotHere: the same.
- Ast2.Resolver.DefineOps: the same.
- Ast2.Resolver.DefineFn: the same.
- Ast2.Parse: the order of the appended functions comes from the hash map and is not stated. What is stated is that every function appears exactly once and nothing else is appended.
- Ast2.Values: it requires every function to be keyed by its own identifier. `ResolveInv` proves this holds after every program.
- Ast2: the resolver never builds a `Conditional` statement, because `if c` yields its inner statement unchanged. `ResolvedStatement` states this.
