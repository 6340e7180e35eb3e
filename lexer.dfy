/** The token table of the language (src/lexer.rs) as a tokenizer from source
    text to a sequence of lexemes. At each position the longest match wins; when
    a keyword and the identifier pattern match the same text, the keyword wins.
    Blanks and comments produce nothing, and a character no rule matches becomes
    one `Error` lexeme. */
module Lexer {
  import opened Wrappers

  /** The kinds of token. `BehaviourStart` is the `//` token (named
      `ExpressionStart` in the token table and `BehaviourStart` by the parser);
      `And` is the parameter separator the parser looks for, which no rule of the
      token table produces. */
  datatype Token =
    | Operator
    | BehaviourStart
    | Is
    | Then
    | With
    | If
    | Goto
    | Discard
    | NotHere
    | Return
    | ParenLeft
    | ParenRight
    | StillIn
    | Newline
    | Identifier
    | Number(value: nat)
    | And
    | Error

  /** The half-open range [start, end) of source characters a token came from. */
  datatype Span = Span(start: nat, end: nat)

  datatype Lexeme = Lexeme(token: Token, span: Span)

  /** The form-feed character, `\f`. */
  const FormFeed: char := '\U{000C}'

  predicate IsLetter(c: char) {
    'A' <= c <= 'Z' || 'a' <= c <= 'z' || c == '_'
  }

  predicate IsDigit(c: char) {
    '0' <= c <= '9'
  }

  predicate IsWordChar(c: char) {
    IsLetter(c) || IsDigit(c)
  }

  /** Characters that are skipped one at a time. */
  predicate IsBlank(c: char) {
    c == ' ' || c == '\t' || c == '\r'
  }

  /** The character classes that a run of characters is scanned over. */
  datatype CharClass = WordChars | Digits | NotNewline

  predicate InClass(c: char, cls: CharClass) {
    match cls
    case WordChars => IsWordChar(c)
    case Digits => IsDigit(c)
    case NotNewline => c != '\n'
  }

  /** The end of the longest run of `cls` characters starting at `i`. */
  function RunEnd(src: string, i: nat, cls: CharClass): (j: nat)
    requires i <= |src|
    ensures i <= j <= |src|
    ensures forall k :: i <= k < j ==> InClass(src[k], cls)
    ensures j == |src| || !InClass(src[j], cls)
    decreases |src| - i
  {
    if i < |src| && InClass(src[i], cls) then RunEnd(src, i + 1, cls) else i
  }

  predicate StartsWithAt(src: string, i: nat, lit: string) {
    i + |lit| <= |src| && src[i..i + |lit|] == lit
  }

  /** The words that the token table lists before the identifier pattern. */
  function KeywordToken(w: string): Option<Token> {
    if w == "is" then Some(Is)
    else if w == "then" then Some(Then)
    else if w == "with" then Some(With)
    else if w == "if" then Some(If)
    else if w == "goto" then Some(Goto)
    else if w == "return" then Some(Return)
    else if w == "yeet" || w == "fuckall" then Some(Discard)
    else None
  }

  function DigitValue(c: char): nat
    requires IsDigit(c)
  {
    c as int - '0' as int
  }

  /** The decimal value of a string of digits. */
  function DecimalValue(s: string): nat
    requires forall k :: 0 <= k < |s| ==> IsDigit(s[k])
  {
    if |s| == 0 then 0 else 10 * DecimalValue(s[..|s| - 1]) + DigitValue(s[|s| - 1])
  }

  /** What one scanning step does at a position: skip to `end`, or emit a token
      whose text ends at `end`. */
  datatype Step = Skip(end: nat) | Emit(token: Token, end: nat)

  /** One step of the tokenizer at position `i`. */
  function Scan(src: string, i: nat): (s: Step)
    requires i < |src|
    ensures i < s.end <= |src|
  {
    var c := src[i];
    if c == '.' then Emit(Operator, i + 1)
    else if c == '/' then
      if i + 1 < |src| && src[i + 1] == '/' then Emit(BehaviourStart, i + 2) else Emit(Error, i + 1)
    else if c == '(' then Emit(ParenLeft, i + 1)
    else if c == ')' then Emit(ParenRight, i + 1)
    else if c == '\n' || c == FormFeed then Emit(Newline, i + 1)
    else if IsBlank(c) then Skip(i + 1)
    else if c == '*' then Skip(RunEnd(src, i + 1, NotNewline))
    else if IsDigit(c) then
      var j := RunEnd(src, i, Digits);
      Emit(Number(DecimalValue(src[i..j])), j)
    else if c == 'n' && StartsWithAt(src, i, "not here") then Emit(NotHere, i + 8)
    else if c == 's' && StartsWithAt(src, i, "still in") then Emit(StillIn, i + 8)
    else if IsLetter(c) then
      var j := RunEnd(src, i, WordChars);
      var kw := KeywordToken(src[i..j]);
      Emit(if kw.Some? then kw.value else Identifier, j)
    else Emit(Error, i + 1)
  }

  /**
   * The lexemes of `src` from position `i` on; spans are positions in `src`.
   * Every lexeme covers at least one character, so there are at most as
   * many lexemes as characters left.
   */
  function LexFrom(src: string, i: nat): (r: seq<Lexeme>)
    ensures i <= |src| ==> i + |r| <= |src|
    decreases |src| - i
  {
    if i >= |src| then []
    else match Scan(src, i)
      case Skip(j) => LexFrom(src, j)
      case Emit(t, j) => [Lexeme(t, Span(i, j))] + LexFrom(src, j)
  }

  /** `Token::lexer(src)`, run to the end. */
  function Lex(src: string): (r: seq<Lexeme>)
    ensures |r| <= |src|
  {
    LexFrom(src, 0)
  }

  // ---------------------------------------------------------------------
  // What the tokens mean: each token's text, and what lies between tokens.

  /** `text` is a text that the token table turns into `t`. */
  predicate Matches(t: Token, text: string) {
    match t
    case Operator => text == "."
    case BehaviourStart => text == "//"
    case Is => text == "is"
    case Then => text == "then"
    case With => text == "with"
    case If => text == "if"
    case Goto => text == "goto"
    case Return => text == "return"
    case Discard => text == "yeet" || text == "fuckall"
    case NotHere => text == "not here"
    case StillIn => text == "still in"
    case ParenLeft => text == "("
    case ParenRight => text == ")"
    case Newline => text == "\n" || text == [FormFeed]
    case Identifier =>
      && |text| > 0 && IsLetter(text[0])
      && (forall k :: 0 <= k < |text| ==> IsWordChar(text[k]))
      && KeywordToken(text).None?
    case Number(n) =>
      && |text| > 0
      && (forall k :: 0 <= k < |text| ==> IsDigit(text[k]))
      && DecimalValue(text) == n
    case And => false
    case Error => |text| == 1
  }

  /** Text that produces no token: blanks, then at most one comment, which runs
      to the end of its line. */
  predicate Gap(s: string) {
    |s| == 0 || (IsBlank(s[0]) && Gap(s[1..])) || (s[0] == '*' && '\n' !in s)
  }

  /** The lexemes `ls` cover `src[lo..]`: in order, each one's text matches its
      token, and only gaps lie before, between and after them. */
  predicate Covers(src: string, lo: nat, ls: seq<Lexeme>)
    requires lo <= |src|
    decreases |ls|
  {
    if |ls| == 0 then Gap(src[lo..])
    else
      var sp := ls[0].span;
      && lo <= sp.start < sp.end <= |src|
      && Gap(src[lo..sp.start])
      && Matches(ls[0].token, src[sp.start..sp.end])
      && Covers(src, sp.end, ls[1..])
  }

  /** A keyword's text matches the token the keyword table gives it. */
  lemma {:induction false} KeywordMatches(w: string)
    requires KeywordToken(w).Some?
    ensures Matches(KeywordToken(w).value, w)
  {
  }

  /** Every token that one scanning step emits matches the text it spans. */
  lemma {:induction false} ScanMatches(src: string, i: nat)
    requires i < |src|
    requires Scan(src, i).Emit?
    ensures Matches(Scan(src, i).token, src[i..Scan(src, i).end])
  {
    var c := src[i];
    if c == '.' {
      assert src[i..i + 1] == [c];
    } else if c == '/' {
      if i + 1 < |src| && src[i + 1] == '/' {
        assert src[i..i + 2] == "//";
      }
    } else if c == '(' || c == ')' || c == '\n' || c == FormFeed {
      assert src[i..i + 1] == [c];
    } else if IsBlank(c) || c == '*' {
    } else if IsDigit(c) {
    } else if (c == 'n' && StartsWithAt(src, i, "not here")) || (c == 's' && StartsWithAt(src, i, "still in")) {
    } else if IsLetter(c) {
      var j := RunEnd(src, i, WordChars);
      var w := src[i..j];
      if KeywordToken(w).Some? {
        KeywordMatches(w);
      }
    }
  }

  /** The lexemes from `i` on start at or after `i`. */
  lemma {:induction false} LexFromStartsAfter(src: string, i: nat)
    ensures forall k :: 0 <= k < |LexFrom(src, i)| ==> i <= LexFrom(src, i)[k].span.start
    decreases |src| - i
  {
    if i < |src| {
      LexFromStartsAfter(src, Scan(src, i).end);
    }
  }

  /** The tokenizer loses nothing: from any position, its lexemes cover the rest
      of the source, each one matching its text, with only gaps between them. */
  lemma {:induction false} LexFromCovers(src: string, i: nat)
    requires i <= |src|
    ensures Covers(src, i, LexFrom(src, i))
    decreases |src| - i, 1
  {
    if i == |src| {
      assert src[i..] == [];
    } else if Scan(src, i).Emit? {
      EmitCovers(src, i);
    } else {
      SkipCovers(src, i);
    }
  }

  /** A step that emits a lexeme: the lexeme matches its text, and the rest covers what follows. */
  lemma {:induction false} EmitCovers(src: string, i: nat)
    requires i < |src| && Scan(src, i).Emit?
    ensures Covers(src, i, LexFrom(src, i))
    decreases |src| - i, 0
  {
    var j := Scan(src, i).end;
    LexFromCovers(src, j);
    var rest := LexFrom(src, j);
    ScanMatches(src, i);
    assert src[i..i] == [];
    assert LexFrom(src, i)[1..] == rest;
  }

  /** A step that skips a blank or a comment: the skipped text joins the gap before the next lexeme. */
  lemma {:induction false} SkipCovers(src: string, i: nat)
    requires i < |src| && Scan(src, i).Skip?
    ensures Covers(src, i, LexFrom(src, i))
    decreases |src| - i, 0
  {
    var j := Scan(src, i).end;
    LexFromCovers(src, j);
    var rest := LexFrom(src, j);
    assert LexFrom(src, i) == rest;
    var stop := if |rest| == 0 then |src| else rest[0].span.start;
    assert j <= stop <= |src|;
    var gapText := src[i..stop];
    if IsBlank(src[i]) {
      if |rest| == 0 {
        assert src[j..] == src[j..stop];
      }
      assert Gap(src[j..stop]);
      assert gapText[1..] == src[j..stop];
      assert Gap(gapText);
    } else {
      assert src[i] == '*';
      if j < |src| {
        assert src[j] == '\n';
        assert rest[0].span.start == j;
      }
      assert stop == j;
      assert forall k :: 0 <= k < |gapText| ==> gapText[k] != '\n';
      assert '\n' !in gapText;
      assert gapText[0] == '*';
      assert Gap(gapText);
    }
    if |rest| == 0 {
      assert src[i..] == gapText;
    }
  }

  /** The whole source is covered by its lexemes. */
  lemma {:induction false} LexCovers(src: string)
    ensures Covers(src, 0, Lex(src))
  {
    LexFromCovers(src, 0);
  }

  /** A word (a letter or `_`, then letters, digits and `_`) that is not the
      start of `not here` or `still in` is one lexeme spanning the whole word: its
      keyword token if it is a keyword, an `Identifier` otherwise. */
  lemma {:induction false} LexWord(src: string, i: nat, j: nat)
    requires i < j <= |src| && IsLetter(src[i])
    requires forall k :: i <= k < j ==> IsWordChar(src[k])
    requires j == |src| || !IsWordChar(src[j])
    requires !StartsWithAt(src, i, "not here") && !StartsWithAt(src, i, "still in")
    ensures var kw := KeywordToken(src[i..j]);
      LexFrom(src, i) == [Lexeme(if kw.Some? then kw.value else Identifier, Span(i, j))] + LexFrom(src, j)
  {
    assert RunEnd(src, i, WordChars) == j;
  }

  /** `is`, `then`, `with`, `if`, `goto`, `return`, `yeet` and `fuckall` lex as
      their keyword tokens, never as `Identifier`, when the word ends there. */
  lemma {:induction false} LexKeyword(src: string, i: nat, k: string, tok: Token)
    requires KeywordToken(k) == Some(tok)
    requires StartsWithAt(src, i, k)
    requires i + |k| == |src| || !IsWordChar(src[i + |k|])
    ensures LexFrom(src, i) == [Lexeme(tok, Span(i, i + |k|))] + LexFrom(src, i + |k|)
    ensures tok != Identifier
  {
    var j := i + |k|;
    KeywordLetters(k);
    assert LexFrom(src, i) == [Lexeme(tok, Span(i, j))] + LexFrom(src, j) by {
      assert src[i..j] == k;
      forall m | i <= m < j
        ensures IsWordChar(src[m])
      {
        assert src[m] == k[m - i];
      }
      assert src[i] == k[0];
      NotStartsWith(src, i, "not here");
      NotStartsWith(src, i, "still in");
      LexWord(src, i, j);
    }
  }

  /** A text cannot start at `i` when its first character differs from `src[i]`. */
  lemma {:induction false} NotStartsWith(src: string, i: nat, p: string)
    requires |p| > 0 && i < |src| && src[i] != p[0]
    ensures !StartsWithAt(src, i, p)
  {
    if i + |p| <= |src| {
      assert src[i..i + |p|][0] == src[i];
    }
  }

  /** Every keyword is made of letters and starts with neither `n` nor `s`. */
  lemma {:induction false} KeywordLetters(k: string)
    requires KeywordToken(k).Some?
    ensures KeywordToken(k).value != Identifier
    ensures |k| > 0 && k[0] != 'n' && k[0] != 's'
    ensures forall m :: 0 <= m < |k| ==> IsLetter(k[m])
  {
    if k == "is" {
    } else if k == "then" {
    } else if k == "with" {
    } else if k == "if" {
    } else if k == "goto" {
    } else if k == "return" {
    } else if k == "yeet" {
    } else {
      assert k == "fuckall";
    }
  }

  /** A word that is not a keyword lexes as one `Identifier` whose text is the
      whole word. */
  lemma {:induction false} LexIdentifier(src: string, i: nat, j: nat)
    requires i < j <= |src| && IsLetter(src[i])
    requires forall k :: i <= k < j ==> IsWordChar(src[k])
    requires j == |src| || !IsWordChar(src[j])
    requires KeywordToken(src[i..j]).None?
    requires !StartsWithAt(src, i, "not here") && !StartsWithAt(src, i, "still in")
    ensures LexFrom(src, i) == [Lexeme(Identifier, Span(i, j))] + LexFrom(src, j)
  {
    LexWord(src, i, j);
  }

  /** `not here` and `still in` are single tokens that include the space. */
  lemma {:induction false} LexPhrase(src: string, i: nat, p: string)
    requires p == "not here" || p == "still in"
    requires StartsWithAt(src, i, p)
    ensures LexFrom(src, i) == [Lexeme(if p == "not here" then NotHere else StillIn, Span(i, i + 8))] + LexFrom(src, i + 8)
  {
    assert src[i..i + 8] == p;
    assert src[i] == p[0];
  }

  /** Space, tab and carriage return produce no token. */
  lemma {:induction false} LexBlank(src: string, i: nat)
    requires i < |src| && IsBlank(src[i])
    ensures LexFrom(src, i) == LexFrom(src, i + 1)
  {
  }

  /** Line feed and form feed each produce one `Newline`. */
  lemma {:induction false} LexNewline(src: string, i: nat)
    requires i < |src| && (src[i] == '\n' || src[i] == FormFeed)
    ensures LexFrom(src, i) == [Lexeme(Newline, Span(i, i + 1))] + LexFrom(src, i + 1)
  {
  }

  /** A `*` starts a comment that runs up to the end of the line and produces
      nothing; the line feed that ends it is still a `Newline`. */
  lemma {:induction false} LexComment(src: string, i: nat, j: nat)
    requires i < j <= |src| && src[i] == '*'
    requires forall k :: i < k < j ==> src[k] != '\n'
    requires j == |src| || src[j] == '\n'
    ensures LexFrom(src, i) == LexFrom(src, j)
    ensures j < |src| ==> LexFrom(src, j) == [Lexeme(Newline, Span(j, j + 1))] + LexFrom(src, j + 1)
  {
    assert RunEnd(src, i + 1, NotNewline) == j;
    assert Scan(src, i) == Skip(j);
    if j < |src| {
      LexNewline(src, j);
    }
  }

  /** A run of digits is one `Number` carrying its decimal value. */
  lemma {:induction false} LexNumber(src: string, i: nat, j: nat)
    requires i < j <= |src|
    requires forall k :: i <= k < j ==> IsDigit(src[k])
    requires j == |src| || !IsDigit(src[j])
    ensures LexFrom(src, i) == [Lexeme(Number(DecimalValue(src[i..j])), Span(i, j))] + LexFrom(src, j)
  {
    assert RunEnd(src, i, Digits) == j;
  }

  /** A `.` is one `Operator`. */
  lemma {:induction false} LexDot(src: string, i: nat)
    requires i < |src| && src[i] == '.'
    ensures LexFrom(src, i) == [Lexeme(Operator, Span(i, i + 1))] + LexFrom(src, i + 1)
  {
  }

  /** Each `.` is an `Operator` of its own, so `..` is two of them. */
  lemma {:induction false} LexDots(src: string, i: nat)
    requires StartsWithAt(src, i, "..")
    ensures LexFrom(src, i) == [Lexeme(Operator, Span(i, i + 1)), Lexeme(Operator, Span(i + 1, i + 2))] + LexFrom(src, i + 2)
  {
    assert src[i] == '.' && src[i + 1] == '.';
  }

  /** `//` is one `BehaviourStart` token. */
  lemma {:induction false} LexSlashes(src: string, i: nat)
    requires StartsWithAt(src, i, "//")
    ensures LexFrom(src, i) == [Lexeme(BehaviourStart, Span(i, i + 2))] + LexFrom(src, i + 2)
  {
    assert src[i] == '/' && src[i + 1] == '/';
  }

  /** The `simple_lex` unit test: the tokens of one statement (their texts are in `SimpleLexShape`). */
  lemma {:induction false} SimpleLex(src: string)
    requires src == "a. // yeet is increment\n"
    ensures Lex(src) == [
      Lexeme(Identifier, Span(0, 1)), Lexeme(Operator, Span(1, 2)),
      Lexeme(BehaviourStart, Span(3, 5)), Lexeme(Discard, Span(6, 10)),
      Lexeme(Is, Span(11, 13)), Lexeme(Identifier, Span(14, 23)),
      Lexeme(Newline, Span(23, 24))]
  {
    SimpleLexTexts(src);
    SimpleLexFromSlashes(src);
    SimpleLexHead(src);
  }

  /** The layout of the `simple_lex` input: the texts of its lexemes and what separates them. */
  predicate SimpleLexShape(src: string) {
    && |src| == 24
    && src[0..1] == "a" && src[1] == '.' && src[2] == ' '
    && src[3..5] == "//" && src[5] == ' '
    && src[6..10] == "yeet" && src[10] == ' '
    && src[11..13] == "is" && src[13] == ' '
    && src[14..23] == "increment" && src[23] == '\n'
  }

  /** The texts of the `simple_lex` lexemes, as that test asserts them. */
  lemma {:induction false} SimpleLexTexts(src: string)
    requires src == "a. // yeet is increment\n"
    ensures SimpleLexShape(src)
  {
    assert src[0..1] == "a";
    assert src[3..5] == "//";
    assert src[6..10] == "yeet";
    assert src[11..13] == "is";
    assert src[14..23] == "increment";
  }

  /** The `simple_lex` input up to the `//`: a name, a `.` and a blank. */
  lemma {:induction false} SimpleLexHead(src: string)
    requires SimpleLexShape(src)
    ensures Lex(src) == [Lexeme(Identifier, Span(0, 1)), Lexeme(Operator, Span(1, 2))] + LexFrom(src, 3)
  {
    assert src[0] == src[0..1][0] == 'a';
    calc {
      Lex(src);
    == { NotStartsWith(src, 0, "not here"); NotStartsWith(src, 0, "still in"); LexIdentifier(src, 0, 1); }
      [Lexeme(Identifier, Span(0, 1))] + LexFrom(src, 1);
    == { LexDot(src, 1); }
      [Lexeme(Identifier, Span(0, 1))] + ([Lexeme(Operator, Span(1, 2))] + LexFrom(src, 2));
    == { LexBlank(src, 2); }
      [Lexeme(Identifier, Span(0, 1)), Lexeme(Operator, Span(1, 2))] + LexFrom(src, 3);
    }
  }

  /** The `simple_lex` input from `//` on. */
  lemma {:induction false} SimpleLexFromSlashes(src: string)
    requires SimpleLexShape(src)
    ensures LexFrom(src, 3) == [
      Lexeme(BehaviourStart, Span(3, 5)), Lexeme(Discard, Span(6, 10)), Lexeme(Is, Span(11, 13)),
      Lexeme(Identifier, Span(14, 23)), Lexeme(Newline, Span(23, 24))]
  {
    SimpleLexFromYeet(src);
    LexBlank(src, 5);
    LexSlashes(src, 3);
  }

  /** The `simple_lex` input from `yeet` on. */
  lemma {:induction false} SimpleLexFromYeet(src: string)
    requires SimpleLexShape(src)
    ensures LexFrom(src, 6) == [
      Lexeme(Discard, Span(6, 10)), Lexeme(Is, Span(11, 13)),
      Lexeme(Identifier, Span(14, 23)), Lexeme(Newline, Span(23, 24))]
  {
    SimpleLexFromIs(src);
    LexBlank(src, 10);
    LexKeyword(src, 6, "yeet", Discard);
  }

  /** The `simple_lex` input from `is` on. */
  lemma {:induction false} SimpleLexFromIs(src: string)
    requires SimpleLexShape(src)
    ensures LexFrom(src, 11) == [
      Lexeme(Is, Span(11, 13)), Lexeme(Identifier, Span(14, 23)), Lexeme(Newline, Span(23, 24))]
  {
    SimpleLexFromIncrement(src);
    LexBlank(src, 13);
    LexKeyword(src, 11, "is", Is);
  }

  /** The `simple_lex` input from `increment` on. */
  lemma {:induction false} SimpleLexFromIncrement(src: string)
    requires SimpleLexShape(src)
    ensures LexFrom(src, 14) == [Lexeme(Identifier, Span(14, 23)), Lexeme(Newline, Span(23, 24))]
  {
    LexNewline(src, 23);
    assert forall k :: 14 <= k < 23 ==> src[k] == src[14..23][k - 14];
    NotStartsWith(src, 14, "not here");
    NotStartsWith(src, 14, "still in");
    LexIdentifier(src, 14, 23);
  }
}
