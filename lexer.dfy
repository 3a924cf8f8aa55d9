/** The scanner of Parser::tokenize as a state machine over the input text.

    `LexFrom` runs the machine from a state (position, parenthesis count, quote
    count, quote flag, tokens pushed so far) to the end of the input or to the
    first fatal condition; `Lex` runs it from the initial state. The method
    Parsing.Parser.Tokenize, which keeps the source's loops, is proved to compute
    exactly `Lex`, and the lemmas here state what `Lex` promises. */
module Lexer {
  import opened Tokens
  import opened Numbers

  /** The white space cases of the dispatching switch. */
  predicate IsBlank(c: char) { c == ' ' || c == '\n' || c == '\t' }

  /** Parser::special_chars. */
  predicate IsSpecial(c: char)
  {
    c == '(' || c == ')' || c == '+' || c == '-' || c == '*' || c == '/' || c == '%'
  }

  /** A character that ends a word: white space or a special character, outside
      a quote, and never `-`. */
  predicate EndsWord(c: char, inQuote: bool)
  {
    (IsBlank(c) || IsSpecial(c)) && !inQuote && c != '-'
  }

  /** A character at which the word scan stops: a quote, or one that ends a word. */
  predicate StopsWord(c: char, inQuote: bool)
  {
    c == '"' || EndsWord(c, inQuote)
  }

  /** The four fatal conditions of tokenize. */
  datatype LexError =
    | UnbalancedParen     // a `)` takes the parenthesis count below zero
    | UnbalancedQuote     // a closing quote takes the quote count below zero
    | EofUnbalancedParen  // parentheses still open at the end of the input
    | EofUnbalancedQuote  // quote count not zero at the end of the input

  /** The outcome of tokenize, with the tokens pushed before it ended. */
  datatype LexResult =
    | Lexed(tokens: seq<Token>)
    | LexFailed(error: LexError, tokens: seq<Token>)

  /** The scanner's variables: the index `i`, paren_count, quote_count, in_quote,
      and the tokens pushed so far. */
  datatype Scan = Scan(pos: nat, parens: int, quotes: int, inQuote: bool, tokens: seq<Token>)

  datatype StepResult = Next(scan: Scan) | Halt(error: LexError)

  /** Where the word scan starting at `j` stops: the first quote, or the first
      character that ends a word, or the end of the input. */
  function WordEnd(file: string, j: nat, inQuote: bool): (k: nat)
    requires j <= |file|
    ensures j <= k <= |file|
    decreases |file| - j
  {
    if j == |file| || StopsWord(file[j], inQuote) then j else WordEnd(file, j + 1, inQuote)
  }

  /** The word scan passes only characters that do not stop it, and stops on
      one unless it reaches the end of the input. */
  lemma {:induction false} WordEndStops(file: string, j: nat, inQuote: bool)
    requires j <= |file|
    ensures forall m :: j <= m < WordEnd(file, j, inQuote) ==> !StopsWord(file[m], inQuote)
    ensures WordEnd(file, j, inQuote) < |file| ==> StopsWord(file[WordEnd(file, j, inQuote)], inQuote)
    decreases |file| - j
  {
    if j < |file| && !StopsWord(file[j], inQuote) {
      WordEndStops(file, j + 1, inQuote);
    }
  }

  /** The token for a finished word: the tests run on the word without a leading
      `-`, the text keeps it. */
  function WordToken(word: string): (t: Token)
    ensures t.val == word && (t.kind == Integer || t.kind == Float || t.kind == Word)
  {
    var isNegative := |word| > 0 && word[0] == '-';
    var body := if isNegative then word[1..] else word;
    var kind := if IsInt(body) then Integer else if IsFloat(body) then Float else Word;
    Token(kind, word)
  }

  /** Push `t` and move to `pos`. */
  function Emit(st: Scan, pos: nat, t: Token): Scan
  {
    st.(pos := pos, tokens := st.tokens + [t])
  }

  /** One pass of the outer loop body, from the dispatching switch. */
  function Step(file: string, st: Scan): (r: StepResult)
    requires st.pos < |file|
    ensures r.Next? ==> st.pos < r.scan.pos <= |file|
  {
    var i := st.pos;
    var c := file[i];
    if c == '(' then
      Next(Emit(st.(parens := st.parens + 1), i + 1, Token(LParen, "(")))
    else if c == ')' then
      if st.parens - 1 < 0 then Halt(UnbalancedParen)
      else Next(Emit(st.(parens := st.parens - 1), i + 1, Token(RParen, ")")))
    else if IsBlank(c) then
      Next(st.(pos := i + 1))
    else if c == '+' then
      Next(Emit(st, i + 1, Token(Plus, "+")))
    else if c == '-' && !(i < |file| - 1 && IsDigit(file[i + 1])) then
      Next(Emit(st, i + 1, Token(Minus, "-")))
    else if c == '*' then
      Next(Emit(st, i + 1, Token(Multiply, "*")))
    else if c == '/' then
      Next(Emit(st, i + 1, Token(Divide, "/")))
    else if c == '%' then
      Next(Emit(st, i + 1, Token(Modulo, "%")))
    else if c == '"' then
      Next(st.(pos := i + 1, inQuote := !st.inQuote, quotes := st.quotes + 1))
    else
      ScanWord(file, st)
  }

  /** The inner word loop, entered on a character the switch let through. A
      word that reaches the end of the input pushes nothing, and the outer loop
      goes on at the next character; a word ended by a quote becomes a string
      literal and the quote is consumed; any other word is classified and the
      character that ended it is dispatched next. */
  function ScanWord(file: string, st: Scan): (r: StepResult)
    requires st.pos < |file| && !StopsWord(file[st.pos], st.inQuote)
    ensures r.Next? ==> st.pos < r.scan.pos <= |file|
  {
    var i := st.pos;
    var k := WordEnd(file, i, st.inQuote);
    if k == |file| then
      Next(st.(pos := i + 1))
    else WordStop(st, file[i..k], k, file[k])
  }

  /** The word `word` stopped at index `k` by the character `stop`: a quote
      makes it a string literal and is consumed; any other word is classified
      and the character that ended it is dispatched next. */
  function WordStop(st: Scan, word: string, k: nat, stop: char): (r: StepResult)
    ensures r.Halt? <==> stop == '"' && st.quotes < 1
    ensures r.Halt? ==> r.error == UnbalancedQuote
  {
    if stop == '"' then
      if st.quotes - 1 < 0 then Halt(UnbalancedQuote)
      else Next(Emit(st.(inQuote := !st.inQuote, quotes := st.quotes - 1), k + 1,
                     Token(StringLiteral, word)))
    else
      Next(Emit(st, k, WordToken(word)))
  }

  /** The checks after the loop: parentheses first, then quotes. */
  function Finish(st: Scan): (r: LexResult)
    ensures r.tokens == st.tokens
    ensures r.Lexed? <==> st.parens == 0 && st.quotes == 0
    ensures r.LexFailed? ==> (r.error == EofUnbalancedParen <==> st.parens != 0)
    ensures r.LexFailed? ==> r.error == EofUnbalancedParen || r.error == EofUnbalancedQuote
  {
    if st.parens != 0 then LexFailed(EofUnbalancedParen, st.tokens)
    else if st.quotes != 0 then LexFailed(EofUnbalancedQuote, st.tokens)
    else Lexed(st.tokens)
  }

  /** The scanner run from `st` to its end. */
  function LexFrom(file: string, st: Scan): LexResult
    requires st.pos <= |file|
    decreases |file| - st.pos
  {
    if st.pos == |file| then Finish(st)
    else
      match Step(file, st)
      case Halt(e) => LexFailed(e, st.tokens)
      case Next(next) => LexFrom(file, next)
  }

  const Start: Scan := Scan(0, 0, 0, false, [])

  /** Parser::tokenize on `file`. */
  function Lex(file: string): LexResult
  {
    LexFrom(file, Start)
  }

  /** The word scan stops at the first index from `j` on where StopsWord holds. */
  lemma {:induction false} WordEndAt(file: string, j: nat, inQuote: bool, k: nat)
    requires j <= k <= |file|
    requires forall m :: j <= m < k ==> !StopsWord(file[m], inQuote)
    requires k < |file| ==> StopsWord(file[k], inQuote)
    ensures WordEnd(file, j, inQuote) == k
    decreases k - j
  {
    if j < k {
      WordEndAt(file, j + 1, inQuote, k);
    }
  }

  /** At the end of the input the run ends with the checks after the loop. */
  lemma Finished(file: string, st: Scan)
    requires st.pos == |file|
    ensures LexFrom(file, st) == Finish(st)
  {
  }

  /** A fatal step ends the run with the tokens pushed before it. */
  lemma Halted(file: string, st: Scan, e: LexError)
    requires st.pos < |file| && Step(file, st) == Halt(e)
    ensures LexFrom(file, st) == LexFailed(e, st.tokens)
  {
  }

  /** The characters the switch lets through to the word scan. */
  predicate StartsWord(file: string, i: nat)
    requires i < |file|
  {
    var c := file[i];
    !(c == '(' || c == ')' || IsBlank(c) || c == '+' || c == '*' || c == '/' || c == '%' || c == '"') &&
    (c == '-' ==> i < |file| - 1 && IsDigit(file[i + 1]))
  }

  // ---------------------------------------------------------------------------
  // What the emitted tokens look like

  /** The number of tokens of `kind` in `ts`. */
  function Count(ts: seq<Token>, kind: TokenType): nat
  {
    if ts == [] then 0
    else Count(ts[..|ts| - 1], kind) + (if ts[|ts| - 1].kind == kind then 1 else 0)
  }

  /** No prefix of `ts` closes more parentheses than it opens. */
  predicate NeverNegative(ts: seq<Token>)
  {
    forall n :: 0 <= n <= |ts| ==> Count(ts[..n], RParen) <= Count(ts[..n], LParen)
  }

  predicate ParenBalanced(ts: seq<Token>)
  {
    Count(ts, LParen) == Count(ts, RParen) && NeverNegative(ts)
  }

  /** The number of quote characters in `s`. */
  function Quotes(s: string): nat
  {
    if s == [] then 0 else Quotes(s[..|s| - 1]) + (if s[|s| - 1] == '"' then 1 else 0)
  }

  /** Text a word token can carry: nonempty, without white space, quotes or any
      of ( ) + * / %, and starting with `-` only when a digit follows. */
  predicate IsWordText(w: string)
  {
    |w| > 0 &&
    (forall i :: 0 <= i < |w| ==> !StopsWord(w[i], false)) &&
    (w[0] == '-' ==> |w| > 1 && IsDigit(w[1]))
  }

  /** The tokens tokenize can push: each operator and parenthesis carries its
      own character, a numeric token's text passes its test (a leading `-`
      included), and a string literal holds no quote. */
  predicate WellFormed(t: Token)
  {
    match t.kind
    case LParen => t.val == "("
    case RParen => t.val == ")"
    case Plus => t.val == "+"
    case Minus => t.val == "-"
    case Multiply => t.val == "*"
    case Divide => t.val == "/"
    case Modulo => t.val == "%"
    case Integer => IsWordText(t.val) && IsInt(t.val)
    case Float => IsWordText(t.val) && !IsInt(t.val) && IsFloat(t.val)
    case Word => IsWordText(t.val) && !IsInt(t.val) && !IsFloat(t.val)
    case StringLiteral => '"' !in t.val
    case None => false
    case List => false
  }

  /** Classification depends on the whole word: a word is INTEGER when is_int
      accepts it with its sign, else FLOAT when is_float does, else WORD. */
  lemma ClassifyWord(w: string)
    requires IsWordText(w)
    ensures WordToken(w) == Token(if IsInt(w) then Integer else if IsFloat(w) then Float else Word, w)
    ensures WellFormed(WordToken(w))
  {
    if w[0] == '-' {
      assert "-" + w[1..] == w;
      NegatedInt(w[1..]);
      NegatedFloat(w[1..]);
    }
  }

  // ---------------------------------------------------------------------------
  // The invariant the scanner keeps

  /** The token part of the invariant: the parenthesis count is the number of
      LPAREN less the number of RPAREN pushed, no prefix goes below zero, and
      every token is well formed. */
  predicate TokensOk(parens: int, ts: seq<Token>)
  {
    parens == Count(ts, LParen) - Count(ts, RParen) &&
    NeverNegative(ts) &&
    forall t :: t in ts ==> WellFormed(t)
  }

  predicate Inv(file: string, st: Scan)
  {
    st.pos <= |file| &&
    TokensOk(st.parens, st.tokens) &&
    st.quotes >= 0 && Quotes(file[..st.pos]) == st.quotes + 2 * Count(st.tokens, StringLiteral)
  }

  lemma CountAppend(ts: seq<Token>, t: Token, kind: TokenType)
    ensures Count(ts + [t], kind) == Count(ts, kind) + (if t.kind == kind then 1 else 0)
  {
    assert (ts + [t])[..|ts|] == ts;
  }

  /** Pushing a well-formed token, with the count moved as the token says, keeps
      the token part of the invariant as long as the count stays non-negative. */
  lemma PushKeepsTokensOk(parens: int, ts: seq<Token>, t: Token, parens': int)
    requires TokensOk(parens, ts) && WellFormed(t)
    requires parens' == parens + (if t.kind == LParen then 1 else if t.kind == RParen then -1 else 0)
    requires t.kind == RParen ==> parens >= 1
    ensures TokensOk(parens', ts + [t])
    ensures Count(ts + [t], StringLiteral) == Count(ts, StringLiteral) + (if t.kind == StringLiteral then 1 else 0)
  {
    assert ts[..|ts|] == ts;
    CountAppend(ts, t, LParen);
    CountAppend(ts, t, RParen);
    CountAppend(ts, t, StringLiteral);
    forall n | 0 <= n <= |ts| + 1
      ensures Count((ts + [t])[..n], RParen) <= Count((ts + [t])[..n], LParen)
    {
      if n <= |ts| {
        assert (ts + [t])[..n] == ts[..n];
      } else {
        assert (ts + [t])[..n] == ts + [t];
      }
    }
  }

  lemma QuotesStep(file: string, i: nat)
    requires i < |file|
    ensures Quotes(file[..i + 1]) == Quotes(file[..i]) + (if file[i] == '"' then 1 else 0)
  {
    assert file[..i + 1][..i] == file[..i];
  }

  lemma {:induction false} QuotesSkip(file: string, i: nat, k: nat)
    requires i <= k <= |file|
    requires forall m :: i <= m < k ==> file[m] != '"'
    ensures Quotes(file[..k]) == Quotes(file[..i])
    decreases k - i
  {
    if k > i {
      QuotesSkip(file, i, k - 1);
      QuotesStep(file, k - 1);
    }
  }

  /** Text scanned up to a quote holds no quote. */
  lemma NoQuoteBefore(file: string, i: nat, k: nat)
    requires i <= k <= |file|
    requires forall m :: i <= m < k ==> file[m] != '"'
    ensures '"' !in file[i..k]
  {
    var text := file[i..k];
    forall m | 0 <= m < |text| ensures text[m] != '"' {
      assert text[m] == file[i + m];
    }
  }

  /** Scanning a literal up to its closing quote at `k` sees one quote. */
  lemma ClosingQuote(file: string, i: nat, k: nat)
    requires i < k < |file| && file[k] == '"'
    requires forall m :: i <= m < k ==> file[m] != '"'
    ensures Quotes(file[..k + 1]) == Quotes(file[..i]) + 1
  {
    QuotesSkip(file, i, k);
    QuotesStep(file, k);
  }

  /** A word closed by a quote: the quote count drops by one as the quote
      characters seen rise by one and one more literal is pushed, and the
      literal holds no quote. */
  lemma LiteralKeepsInv(file: string, st: Scan, k: nat)
    requires st.pos < k < |file| && Inv(file, st) && file[k] == '"' && st.quotes >= 1
    requires forall m :: st.pos <= m < k ==> file[m] != '"'
    ensures Inv(file, Emit(st.(inQuote := !st.inQuote, quotes := st.quotes - 1), k + 1,
                           Token(StringLiteral, file[st.pos..k])))
  {
    NoQuoteBefore(file, st.pos, k);
    ClosingQuote(file, st.pos, k);
    PushKeepsTokensOk(st.parens, st.tokens, Token(StringLiteral, file[st.pos..k]), st.parens);
  }

  /** A word closed by a separator outside a quote: it holds no separator and
      no quote, so its token is well formed. */
  lemma WordKeepsInv(file: string, st: Scan, k: nat)
    requires st.pos < k < |file| && Inv(file, st)
    requires forall m :: st.pos <= m < k ==> !StopsWord(file[m], false)
    requires file[st.pos] == '-' ==> st.pos + 1 < k && IsDigit(file[st.pos + 1])
    ensures Inv(file, Emit(st, k, WordToken(file[st.pos..k])))
  {
    var i := st.pos;
    var w := file[i..k];
    QuotesSkip(file, i, k);
    assert forall m :: 0 <= m < |w| ==> w[m] == file[i + m];
    assert IsWordText(w);
    ClassifyWord(w);
    PushKeepsTokensOk(st.parens, st.tokens, WordToken(w), st.parens);
  }

  /** A word stopped at `k`: a closing quote that the quote count allows makes
      a literal, any other stop a classified word. */
  lemma WordStopKeepsInv(file: string, st: Scan, k: nat)
    requires st.pos < k < |file| && Inv(file, st)
    requires forall m :: st.pos <= m < k ==> !StopsWord(file[m], st.inQuote)
    requires StopsWord(file[k], st.inQuote)
    requires file[st.pos] == '-' ==> IsDigit(file[st.pos + 1])
    ensures WordStop(st, file[st.pos..k], k, file[k]).Next? ==>
              Inv(file, WordStop(st, file[st.pos..k], k, file[k]).scan)
  {
    if file[k] == '"' {
      if st.quotes - 1 >= 0 {
        LiteralKeepsInv(file, st, k);
      }
    } else {
      WordKeepsInv(file, st, k);
    }
  }

  lemma ScanWordKeepsInv(file: string, st: Scan)
    requires st.pos < |file| && Inv(file, st) && !StopsWord(file[st.pos], st.inQuote)
    requires file[st.pos] == '-' ==> st.pos + 1 < |file| && IsDigit(file[st.pos + 1])
    ensures ScanWord(file, st).Next? ==> Inv(file, ScanWord(file, st).scan)
  {
    var i := st.pos;
    var k := WordEnd(file, i, st.inQuote);
    WordEndStops(file, i, st.inQuote);
    if k == |file| {
      QuotesStep(file, i);
    } else {
      if file[i] == '-' {
        assert !StopsWord(file[i + 1], st.inQuote);
      }
      ScanStopped(file, st, k);
      WordStopKeepsInv(file, st, k);
    }
  }

  /** A blank or a quote reached by the switch pushes nothing; a quote moves
      the quote count up with the quote characters seen. */
  lemma SkipKeepsInv(file: string, st: Scan)
    requires st.pos < |file| && Inv(file, st)
    requires IsBlank(file[st.pos]) || file[st.pos] == '"'
    ensures Step(file, st).Next? ==> Inv(file, Step(file, st).scan)
  {
    QuotesStep(file, st.pos);
  }

  /** A parenthesis or an operator pushes its own token, which is no literal,
      and passes no quote. */
  lemma SymbolKeepsInv(file: string, st: Scan, t: Token, parens': int)
    requires st.pos < |file| && Inv(file, st) && file[st.pos] != '"'
    requires WellFormed(t) && t.kind != StringLiteral
    requires parens' == st.parens + (if t.kind == LParen then 1 else if t.kind == RParen then -1 else 0)
    requires t.kind == RParen ==> st.parens >= 1
    ensures Inv(file, Emit(st.(parens := parens'), st.pos + 1, t))
  {
    QuotesStep(file, st.pos);
    PushKeepsTokensOk(st.parens, st.tokens, t, parens');
  }

  lemma StepKeepsInv(file: string, st: Scan)
    requires st.pos < |file| && Inv(file, st)
    ensures Step(file, st).Next? ==> Inv(file, Step(file, st).scan)
  {
    var i := st.pos;
    var c := file[i];
    if IsBlank(c) || c == '"' {
      SkipKeepsInv(file, st);
    } else if c == '(' {
      SymbolKeepsInv(file, st, Token(LParen, "("), st.parens + 1);
    } else if c == ')' {
      if st.parens - 1 >= 0 {
        SymbolKeepsInv(file, st, Token(RParen, ")"), st.parens - 1);
      }
    } else if c == '+' {
      SymbolKeepsInv(file, st, Token(Plus, "+"), st.parens);
    } else if c == '-' && !(i < |file| - 1 && IsDigit(file[i + 1])) {
      SymbolKeepsInv(file, st, Token(Minus, "-"), st.parens);
    } else if c == '*' {
      SymbolKeepsInv(file, st, Token(Multiply, "*"), st.parens);
    } else if c == '/' {
      SymbolKeepsInv(file, st, Token(Divide, "/"), st.parens);
    } else if c == '%' {
      SymbolKeepsInv(file, st, Token(Modulo, "%"), st.parens);
    } else {
      ScanWordKeepsInv(file, st);
    }
  }

  /** Whatever way the run ends, its tokens satisfy the invariant's promises;
      on success the counters are zero. */
  lemma {:induction false} LexFromKeepsInv(file: string, st: Scan)
    requires Inv(file, st)
    ensures NeverNegative(LexFrom(file, st).tokens)
    ensures forall t :: t in LexFrom(file, st).tokens ==> WellFormed(t)
    ensures LexFrom(file, st).Lexed? ==>
              Count(LexFrom(file, st).tokens, LParen) == Count(LexFrom(file, st).tokens, RParen) &&
              Quotes(file) == 2 * Count(LexFrom(file, st).tokens, StringLiteral)
    decreases |file| - st.pos
  {
    if st.pos == |file| {
      assert file[..st.pos] == file;
    } else {
      StepKeepsInv(file, st);
      match Step(file, st)
      case Halt(e) =>
      case Next(next) => LexFromKeepsInv(file, next);
    }
  }

  lemma StartInv(file: string)
    ensures Inv(file, Start)
  {
    assert file[..0] == [];
  }

  /** On success the token list is balanced: as many LPAREN as RPAREN, and no
      prefix with more RPAREN than LPAREN; even a failed run never pushes an
      unmatched RPAREN. */
  lemma LexParenBalanced(file: string)
    ensures NeverNegative(Lex(file).tokens)
    ensures Lex(file).Lexed? ==> ParenBalanced(Lex(file).tokens)
  {
    StartInv(file);
    LexFromKeepsInv(file, Start);
  }

  /** Every quote character moves the quote count by one, and each closing
      quote pushes a literal: on success the input holds two quotes for every
      STRING_LITERAL, so an input with an odd number of quotes is always
      rejected. */
  lemma LexQuoteParity(file: string)
    ensures Lex(file).Lexed? ==> Quotes(file) == 2 * Count(Lex(file).tokens, StringLiteral)
    ensures Quotes(file) % 2 == 1 ==> Lex(file).LexFailed?
  {
    StartInv(file);
    LexFromKeepsInv(file, Start);
  }

  /** Every token tokenize pushes is well formed: operators carry their own
      character, words contain no separator, numeric texts pass their test and
      string literals exclude the quotes. */
  lemma LexTokensWellFormed(file: string)
    ensures forall t :: t in Lex(file).tokens ==> WellFormed(t)
  {
    StartInv(file);
    LexFromKeepsInv(file, Start);
  }

  // ---------------------------------------------------------------------------
  // The scanner reads only from its position onwards

  function ShiftStep(r: StepResult, d: nat): StepResult
  {
    match r
    case Halt(e) => Halt(e)
    case Next(sc) => Next(sc.(pos := sc.pos + d))
  }

  function PrefixStep(pre: seq<Token>, r: StepResult): StepResult
  {
    match r
    case Halt(e) => Halt(e)
    case Next(sc) => Next(sc.(tokens := pre + sc.tokens))
  }

  /** `r` with `pre` put in front of its tokens. */
  function Prepend(pre: seq<Token>, r: LexResult): LexResult
  {
    match r
    case Lexed(ts) => Lexed(pre + ts)
    case LexFailed(e, ts) => LexFailed(e, pre + ts)
  }

  lemma {:induction false} WordEndShift(p: string, s: string, j: nat, inQuote: bool)
    requires j <= |s|
    ensures WordEnd(p + s, j + |p|, inQuote) == WordEnd(s, j, inQuote) + |p|
    decreases |s| - j
  {
    if j < |s| {
      assert (p + s)[j + |p|] == s[j];
      if !StopsWord(s[j], inQuote) {
        WordEndShift(p, s, j + 1, inQuote);
      }
    }
  }

  lemma WordStopShift(st: Scan, word: string, k: nat, stop: char, d: nat)
    ensures WordStop(st.(pos := st.pos + d), word, k + d, stop) == ShiftStep(WordStop(st, word, k, stop), d)
  {
  }

  /** The characters `i` to `k` of `s`, and the one at `k`, are found in
      `p + s` shifted by `|p|`. */
  lemma ShiftedWord(p: string, s: string, i: nat, k: nat)
    requires i <= k < |s|
    ensures (p + s)[k + |p|] == s[k]
    ensures (p + s)[i + |p|..k + |p|] == s[i..k]
  {
  }

  /** A word scan stopped inside the input hands the word and its stop to
      WordStop. */
  lemma ScanStopped(file: string, st: Scan, k: nat)
    requires st.pos < k < |file| && !StopsWord(file[st.pos], st.inQuote) && k == WordEnd(file, st.pos, st.inQuote)
    ensures ScanWord(file, st) == WordStop(st, file[st.pos..k], k, file[k])
  {
  }

  /** The word scan over `p + s` from a shifted position stops at the shifted
      index, on the same word and the same character. */
  lemma ShiftedScanStopped(p: string, s: string, st: Scan, k: nat)
    requires st.pos < k < |s| && !StopsWord(s[st.pos], st.inQuote) && k == WordEnd(s, st.pos, st.inQuote)
    ensures ScanWord(p + s, st.(pos := st.pos + |p|)) ==
            WordStop(st.(pos := st.pos + |p|), s[st.pos..k], k + |p|, s[k])
  {
    ShiftedWord(p, s, st.pos, k);
    WordEndShift(p, s, st.pos, st.inQuote);
    ScanStopped(p + s, st.(pos := st.pos + |p|), k + |p|);
  }

  /** A word stopped inside `s` is the same word in `p + s`, stopped by the
      same character. */
  lemma StoppedWordShift(p: string, s: string, st: Scan, k: nat)
    requires st.pos < k < |s| && !StopsWord(s[st.pos], st.inQuote) && k == WordEnd(s, st.pos, st.inQuote)
    ensures ScanWord(p + s, st.(pos := st.pos + |p|)) == ShiftStep(ScanWord(s, st), |p|)
  {
    ShiftedScanStopped(p, s, st, k);
    ScanStopped(s, st, k);
    WordStopShift(st, s[st.pos..k], k, s[k], |p|);
  }

  lemma ScanWordShift(p: string, s: string, st: Scan)
    requires st.pos < |s| && !StopsWord(s[st.pos], st.inQuote)
    ensures (p + s)[st.pos + |p|] == s[st.pos]
    ensures ScanWord(p + s, st.(pos := st.pos + |p|)) == ShiftStep(ScanWord(s, st), |p|)
  {
    var i := st.pos;
    var k := WordEnd(s, i, st.inQuote);
    assert (p + s)[i + |p|] == s[i];
    if k < |s| {
      StoppedWordShift(p, s, st, k);
    } else {
      WordEndShift(p, s, i, st.inQuote);
    }
  }

  lemma StepShift(p: string, s: string, st: Scan)
    requires st.pos < |s|
    ensures Step(p + s, st.(pos := st.pos + |p|)) == ShiftStep(Step(s, st), |p|)
  {
    var i := st.pos;
    var c := s[i];
    assert (p + s)[|p| + i] == c;
    var lookahead := i < |s| - 1 && IsDigit(s[i + 1]);
    if i + 1 < |s| {
      assert (p + s)[|p| + i + 1] == s[i + 1];
    }
    assert lookahead == (|p| + i < |p + s| - 1 && IsDigit((p + s)[|p| + i + 1]));
    if !(c == '"' || IsBlank(c) || (IsSpecial(c) && (c != '-' || !lookahead))) {
      ScanWordShift(p, s, st);
    }
  }

  /** Running over `p + s` from a position inside `s` is running over `s`. */
  lemma {:induction false} LexShift(p: string, s: string, st: Scan)
    requires st.pos <= |s|
    ensures LexFrom(p + s, st.(pos := st.pos + |p|)) == LexFrom(s, st)
    decreases |s| - st.pos
  {
    if st.pos < |s| {
      StepShift(p, s, st);
      match Step(s, st)
      case Halt(e) =>
      case Next(next) => LexShift(p, s, next);
    }
  }

  /** One pass of the outer loop that goes on: the run continues from the
      state the pass leaves. */
  lemma LexNext(file: string, st: Scan, next: Scan)
    requires st.pos < |file| && Step(file, st) == Next(next)
    ensures LexFrom(file, st) == LexFrom(file, next)
  {
  }

  /** A first pass over `p + s` that consumes exactly `p` hands the rest of
      the run to `s`. */
  lemma LexPass(p: string, s: string, st: Scan, next: Scan)
    requires st.pos == 0 && 0 < |p| && next.pos == 0
    requires Step(p + s, st) == Next(next.(pos := |p|))
    ensures LexFrom(p + s, st) == LexFrom(s, next)
  {
    LexNext(p + s, st, next.(pos := |p|));
    LexShift(p, s, next);
  }

  lemma StepPrefix(file: string, st: Scan, pre: seq<Token>)
    requires st.pos < |file|
    ensures Step(file, st.(tokens := pre + st.tokens)) == PrefixStep(pre, Step(file, st))
  {
    var c := file[st.pos];
    if c == '"' || IsBlank(c) || (IsSpecial(c) && (c != '-' || !(st.pos < |file| - 1 && IsDigit(file[st.pos + 1])))) {
      forall t: Token ensures (pre + st.tokens) + [t] == pre + (st.tokens + [t]) { }
    } else {
      ScanWordPrefix(file, st, pre);
    }
  }

  lemma ScanWordPrefix(file: string, st: Scan, pre: seq<Token>)
    requires st.pos < |file| && !StopsWord(file[st.pos], st.inQuote)
    ensures ScanWord(file, st.(tokens := pre + st.tokens)) == PrefixStep(pre, ScanWord(file, st))
  {
    var k := WordEnd(file, st.pos, st.inQuote);
    if k < |file| {
      WordStopPrefix(st, file[st.pos..k], k, file[k], pre);
    }
  }

  lemma WordStopPrefix(st: Scan, word: string, k: nat, stop: char, pre: seq<Token>)
    ensures WordStop(st.(tokens := pre + st.tokens), word, k, stop)
         == PrefixStep(pre, WordStop(st, word, k, stop))
  {
    forall t: Token ensures (pre + st.tokens) + [t] == pre + (st.tokens + [t]) { }
  }

  /** Tokens already pushed are carried through unchanged. */
  lemma {:induction false} LexPrefix(file: string, st: Scan, pre: seq<Token>)
    requires st.pos <= |file|
    ensures LexFrom(file, st.(tokens := pre + st.tokens)) == Prepend(pre, LexFrom(file, st))
    decreases |file| - st.pos
  {
    if st.pos < |file| {
      StepPrefix(file, st, pre);
      match Step(file, st)
      case Halt(e) =>
      case Next(next) => LexPrefix(file, next, pre);
    }
  }

  // ---------------------------------------------------------------------------
  // What tokenize does with each kind of character, in any state: the first
  // character of `[c] + s` stands for the character at the scanner's index,
  // and the run goes on over the rest `s` from the state the pass leaves.

  /** White space reached by the switch pushes nothing and changes no count. */
  lemma LexBlank(c: char, s: string, st: Scan)
    requires IsBlank(c) && st.pos == 0
    ensures LexFrom([c] + s, st) == LexFrom(s, st)
  {
    assert ([c] + s)[0] == c;
    assert Step([c] + s, st) == Next(st.(pos := 1));
    LexPass([c], s, st, st);
  }

  function SymbolKind(c: char): TokenType
  {
    if c == '+' then Plus
    else if c == '-' then Minus
    else if c == '*' then Multiply
    else if c == '/' then Divide
    else Modulo
  }

  /** Each of + * / % pushes exactly one one-character token of its own kind
      and changes no count. */
  lemma LexOperator(c: char, s: string, st: Scan)
    requires (c == '+' || c == '*' || c == '/' || c == '%') && st.pos == 0
    ensures LexFrom([c] + s, st) == LexFrom(s, st.(tokens := st.tokens + [Token(SymbolKind(c), [c])]))
  {
    var next := st.(tokens := st.tokens + [Token(SymbolKind(c), [c])]);
    assert ([c] + s)[0] == c;
    assert Step([c] + s, st) == Next(next.(pos := 1));
    LexPass([c], s, st, next);
  }

  /** A `-` that is last or not followed by a digit pushes MINUS. */
  lemma LexLoneMinus(s: string, st: Scan)
    requires (s == [] || !IsDigit(s[0])) && st.pos == 0
    ensures LexFrom("-" + s, st) == LexFrom(s, st.(tokens := st.tokens + [Token(Minus, "-")]))
  {
    var next := st.(tokens := st.tokens + [Token(Minus, "-")]);
    assert ("-" + s)[0] == '-' && (|s| > 0 ==> ("-" + s)[1] == s[0]);
    assert Step("-" + s, st) == Next(next.(pos := 1));
    LexPass("-", s, st, next);
  }

  /** `(` pushes LPAREN and opens one more parenthesis. */
  lemma LexOpenParen(s: string, st: Scan)
    requires st.pos == 0
    ensures LexFrom("(" + s, st) ==
            LexFrom(s, st.(parens := st.parens + 1, tokens := st.tokens + [Token(LParen, "(")]))
  {
    var next := st.(parens := st.parens + 1, tokens := st.tokens + [Token(LParen, "(")]);
    assert ("(" + s)[0] == '(';
    assert Step("(" + s, st) == Next(next.(pos := 1));
    LexPass("(", s, st, next);
  }

  /** `)` with no parenthesis open is fatal at once; otherwise it pushes RPAREN
      and closes one. */
  lemma LexCloseParen(s: string, st: Scan)
    requires st.pos == 0
    ensures st.parens < 1 ==> LexFrom(")" + s, st) == LexFailed(UnbalancedParen, st.tokens)
    ensures st.parens >= 1 ==>
              LexFrom(")" + s, st) ==
              LexFrom(s, st.(parens := st.parens - 1, tokens := st.tokens + [Token(RParen, ")")]))
  {
    if st.parens >= 1 {
      var next := st.(parens := st.parens - 1, tokens := st.tokens + [Token(RParen, ")")]);
      assert (")" + s)[0] == ')';
      assert Step(")" + s, st) == Next(next.(pos := 1));
      LexPass(")", s, st, next);
    }
  }

  /** A quote reached by the switch pushes nothing, flips the quote flag and
      raises the quote count. */
  lemma LexQuoteMark(s: string, st: Scan)
    requires st.pos == 0
    ensures LexFrom("\"" + s, st) ==
            LexFrom(s, st.(inQuote := !st.inQuote, quotes := st.quotes + 1))
  {
    var next := st.(inQuote := !st.inQuote, quotes := st.quotes + 1);
    assert ("\"" + s)[0] == '"';
    QuoteStep("\"" + s, st);
    LexPass("\"", s, st, next);
  }

  lemma QuoteStep(file: string, st: Scan)
    requires st.pos < |file| && file[st.pos] == '"'
    ensures Step(file, st) == Next(st.(pos := st.pos + 1, inQuote := !st.inQuote, quotes := st.quotes + 1))
  {
  }

  /** A word, a `-` before a digit included, that a separator ends outside a
      quote is pushed whole with its classification, and the separator is
      dispatched next. */
  lemma LexWord(w: string, rest: string, st: Scan)
    requires IsWordText(w) && |rest| > 0 && EndsWord(rest[0], st.inQuote) && st.pos == 0
    ensures LexFrom(w + rest, st) == LexFrom(rest, st.(tokens := st.tokens + [WordToken(w)]))
  {
    var file := w + rest;
    assert forall m :: 0 <= m < |w| ==> file[m] == w[m];
    assert file[|w|] == rest[0];
    WordEndAt(file, 0, st.inQuote, |w|);
    assert file[..|w|] == w;
    var next := st.(tokens := st.tokens + [WordToken(w)]);
    assert Step(file, st) == Next(next.(pos := |w|));
    LexPass(w, rest, st, next);
  }

  /** A quoted text outside a quote, closed by a quote, becomes one
      STRING_LITERAL without the quotes, and both counts and the flag are back
      where they were. Its first character must reach the word scan: a blank
      or a special character right after the opening quote is dispatched by
      the switch instead. */
  lemma LexQuoted(x: string, rest: string, st: Scan)
    requires |x| > 0 && '"' !in x
    requires !IsBlank(x[0]) && (!IsSpecial(x[0]) || (x[0] == '-' && |x| > 1 && IsDigit(x[1])))
    requires st.pos == 0 && !st.inQuote && st.quotes >= 0
    ensures LexFrom("\"" + x + "\"" + rest, st) ==
            LexFrom(rest, st.(tokens := st.tokens + [Token(StringLiteral, x)]))
  {
    var q := "\"" + x + "\"";
    var file := q + rest;
    assert forall m :: 0 <= m < |x| ==> file[1 + m] == x[m];
    assert file[|x| + 1] == '"';
    WordEndAt(file, 1, true, |x| + 1);
    assert file[1..|x| + 1] == x;
    var st1 := st.(pos := 1, inQuote := true, quotes := st.quotes + 1);
    assert Step(file, st) == Next(st1);
    LexNext(file, st, st1);
    var next := st.(tokens := st.tokens + [Token(StringLiteral, x)]);
    assert Step(file, st1) == Next(next.(pos := |q|));
    LexNext(file, st1, next.(pos := |q|));
    LexShift(q, rest, next);
  }

  /** In any state, a word the switch lets through that a quote stops becomes a
      STRING_LITERAL and the quote is consumed: the quote count goes down by
      one and the flag flips, and a count that would go below zero is fatal. */
  lemma LexClosingQuote(w: string, rest: string, st: Scan)
    requires |w| > 0 && forall m :: 0 <= m < |w| ==> !StopsWord(w[m], st.inQuote)
    requires !IsBlank(w[0]) && (!IsSpecial(w[0]) || (w[0] == '-' && |w| > 1 && IsDigit(w[1])))
    requires st.pos == 0
    ensures st.quotes < 1 ==> LexFrom(w + "\"" + rest, st) == LexFailed(UnbalancedQuote, st.tokens)
    ensures st.quotes >= 1 ==>
              LexFrom(w + "\"" + rest, st) ==
              LexFrom(rest, st.(quotes := st.quotes - 1, inQuote := !st.inQuote,
                                tokens := st.tokens + [Token(StringLiteral, w)]))
  {
    var q := w + "\"";
    var file := q + rest;
    assert forall m :: 0 <= m < |w| ==> file[m] == w[m];
    assert file[|w|] == '"';
    WordEndAt(file, 0, st.inQuote, |w|);
    assert file[..|w|] == w;
    if st.quotes >= 1 {
      var next := st.(quotes := st.quotes - 1, inQuote := !st.inQuote,
                      tokens := st.tokens + [Token(StringLiteral, w)]);
      assert Step(file, st) == Next(next.(pos := |q|));
      LexPass(q, rest, st, next);
    } else {
      assert Step(file, st) == Halt(UnbalancedQuote);
    }
  }

  /** A word that reaches the end of the input pushes nothing: the inner loop
      ends without a push and each later character of the word is scanned again
      the same way. */
  lemma {:induction false} TrailingWordFrom(w: string, st: Scan)
    requires IsWordText(w) && st.pos <= |w|
    requires forall m :: 0 <= m < |w| && w[m] == '-' ==> m + 1 < |w| && IsDigit(w[m + 1])
    ensures LexFrom(w, st) == Finish(st.(pos := |w|))
    decreases |w| - st.pos
  {
    if st.pos < |w| {
      TrailingStep(w, st);
      TrailingWordFrom(w, st.(pos := st.pos + 1));
    }
  }

  /** One pass over a character of a word that runs to the end of the input:
      the word loop pushes nothing and the outer loop moves on by one. */
  lemma TrailingStep(w: string, st: Scan)
    requires IsWordText(w) && st.pos < |w|
    requires forall m :: 0 <= m < |w| && w[m] == '-' ==> m + 1 < |w| && IsDigit(w[m + 1])
    ensures Step(w, st) == Next(st.(pos := st.pos + 1))
  {
    forall m | st.pos <= m < |w| ensures !StopsWord(w[m], st.inQuote) {
      assert !StopsWord(w[m], false);
    }
    WordEndAt(w, st.pos, st.inQuote, |w|);
    if w[st.pos] == '-' {
      assert st.pos + 1 < |w| && IsDigit(w[st.pos + 1]);
    }
    assert ScanWord(w, st) == Next(st.(pos := st.pos + 1));
  }

  /** Whatever the state, a word that ends the input pushes nothing, and the
      checks after the loop decide the outcome. Each `-` in it must stand
      before a digit; any other `-` is pushed as MINUS on the rescan. */
  lemma LexTrailingWord(w: string, st: Scan)
    requires IsWordText(w) && st.pos == 0
    requires forall m :: 0 <= m < |w| && w[m] == '-' ==> m + 1 < |w| && IsDigit(w[m + 1])
    ensures LexFrom(w, st) == Finish(st)
  {
    TrailingWordFrom(w, st);
  }
}
