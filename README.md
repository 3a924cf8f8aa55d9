# Yal lexer and evaluator skeleton in Dafny

A model of the `Parser` class of the Yal interpreter (`src/parser.cpp`):

- `Parser::tokenize`, the character-by-character scanner. It keeps a
  parenthesis count, a quote count and an in-quote flag. Its inner word loop
  rewinds the outer index, and each of its four `assert(false)` exits becomes
  a typed failure (`Lexer.LexError`).
- `Parser::is_int` and `Parser::is_float`, the numeric tests that classify
  words. They are modelled after `strtol` and `strtod` of ISO C11 (sections
  7.22.1.4 and 7.22.1.3), in the "C" locale, on the C string that `c_str()`
  hands over.
- `Parser::eval_ast` and `Parser::eval_list`, the post-order walk that folds
  list nodes in place. The numeric fold and `token::operators` are
  parameters.
- `Parser::clear` and `Parser::get_token_list`, the token-list bookkeeping.

Layout:

- `tokens.dfy` (`Tokens`): `token::Type` and `token::Token`.
- `numbers.dfy` (`Numbers`): `IsInt`, and `IsFloat` as an automaton over
  strtod's subject sequences.
- `lexer.dfy` (`Lexer`): the scanner as a function `Lex`. It returns
  `Lexed(tokens)` or `LexFailed(error, tokens)`. The lemmas here state
  what `Lex` promises.
- `lexer_examples.dfy` (`LexerExamples`): whole runs on small inputs,
  including each quirk below.
- `evaluation.dfy` (`Evaluation`): `Eval` on trees as values.
- `nodes.dfy` (`Nodes`): `node::Node` as a class. Each node has a ghost
  footprint, and a ghost `Tree` that it roots.
- `parser.dfy` (`Parsing`): the `Parser` class. Its methods keep the
  source's loops and are proved against `Lex` and `Eval`.

The model reproduces these behaviours of the code exactly:

- The dispatching switch never looks at `in_quote`. A blank after an opening
  quote is skipped, and `"(x"` pushes `LPAREN`.
- `-` never ends a word, so `a-b` is one word.
- A word that reaches the end of the input pushes nothing. The outer loop
  then goes on at the next character, so every later character of the word is
  scanned again.
- `""` goes through the quote case twice and fails at the end of the input.
- A word scan that meets `"` pushes a `STRING_LITERAL` and lowers the quote
  count. A count that goes below zero is fatal.

Where the code differs from what the token kinds suggest, the model
follows the code:

- Every blank the switch reaches is skipped, inside a quote too: one right
  after an opening quote, or one after a quoted character the switch handles
  itself, such as the `(` of `"( b"`, which gives LPAREN and STRING_LITERAL
  `b`. Once the word scan has started inside a quote, blanks are kept:
  `"a b"` gives STRING_LITERAL `a b`.
- Two quotes in a row do not make an empty literal.
- A word at the end of the input is dropped.
- FLOAT means whatever `strtod` consumes whole, not only decimal literals.
  A word can be a hexadecimal float such as `0x1p3`, or `inf`, `infinity` or
  `nan`. A word never holds `(`, `)` or `+`, so `nan(...)` and `1e+5` are
  never one FLOAT token; `1e5` is. Quoted, `"1e+5"` is one STRING_LITERAL.

## Model

| member | source | states |
|---|---|---|
| Numbers.IsInt | src/parser.cpp:297-309 | Definition of is_int: a first character that is a digit or a sign, then digits only, at least one, up to the NUL. IsIntAsWritten and IsIntIsWholeInteger characterize it. |
| Numbers.IsFloat | src/parser.cpp:311-316 | Definition of is_float: strtod's reading, from white space through one of its subject-sequence forms, ends in an accepting phase at the end of the C string. |
| Numbers.StrtolEnd | src/parser.cpp:306 | The offset strtol's end pointer gets is within the string; StrtolEndIsLongest states what it covers. |
| Numbers.StrtolEndIsLongest | src/parser.cpp:305-306 | strtol's end offset covers the longest optionally signed digit run, and a following character is not a digit. When no prefix is such a run, the offset is 0. |
| Numbers.DigitsToNulIsRun | src/parser.cpp:305-308 | The recursive digit test up to the NUL holds exactly when the digit run is nonempty and ends at the end of the string or at a NUL. |
| Numbers.IsIntAsWritten | src/parser.cpp:297-309 | is_int holds iff the string is nonempty, starts with a digit, `-` or `+`, and strtol's end pointer rests on the terminating NUL. |
| Numbers.IsIntIsWholeInteger | src/parser.cpp:297-309 | is_int holds iff the C string, as a whole, is an optionally signed run of decimal digits. |
| Numbers.IsIntExamples | src/parser.cpp:297-309 | `""`, `"-"`, `"+"` and `"1.5"` are not integers; `"-12"` and `"+7"` are. |
| Numbers.DigitsToNulIsCString | src/parser.cpp:305-308 | Digits up to the NUL is the C string being all digits (at least one unless some were already seen). |
| Numbers.CString | src/parser.cpp:306 | What `c_str()` shows C is the prefix of the string before its first NUL. It holds no NUL, and it stops either at a NUL or at the end. |
| Numbers.ReadsCString | src/parser.cpp:311-316 | strtod's reading of a string is its reading of the C string: nothing after the first NUL matters. |
| Numbers.IntegerIsRead | src/parser.cpp:311-316 | strtod reads an optionally signed digit run to its end. |
| Numbers.IntIsFloat | src/parser.cpp:297-316 | Every string is_int accepts, is_float accepts too. |
| Numbers.NegatedInt | src/parser.cpp:233-238 | Before a digit, a leading `-` does not change is_int. |
| Numbers.NegatedFloat | src/parser.cpp:233-241 | Before a digit, a leading `-` does not change is_float. |
| Lexer.Lex | src/parser.cpp:121-277 | Definition of tokenize on a whole input, from zero counters, outside a quote and with no tokens. Parsing.Parser.Tokenize computes it. |
| Lexer.LexFrom | src/parser.cpp:127-276 | Definition of the outer loop from any state: passes until the end of the input or the first fatal pass, then the end-of-input checks. |
| Lexer.Step | src/parser.cpp:128-208 | One pass of the dispatching switch, with the word scan as its default. A pass that goes on moves the index forward, and not past the end of the input. |
| Lexer.ScanWord | src/parser.cpp:211-265 | The word loop entered on a character the switch let through. It goes on at a later index within the input, or fails at a closing quote. |
| Lexer.WordEnd | src/parser.cpp:211-229 | Where the word scan from `j` stops, between `j` and the end of the input. |
| Lexer.WordStop | src/parser.cpp:214-263 | A stopped word fails exactly when a quote stopped it and the quote count is below one, and the error is then UnbalancedQuote. |
| Lexer.WordToken | src/parser.cpp:230-258 | A finished word's token carries the word itself as its text, and its kind is INTEGER, FLOAT or WORD. |
| Lexer.Finish | src/parser.cpp:268-276 | The end-of-input checks keep the tokens. They succeed exactly when both counts are zero. They report open parentheses whenever the parenthesis count is not zero, which makes that check first, and open quotes otherwise. |
| Lexer.WordEndStops | src/parser.cpp:211-229 | The word scan passes only characters that do not stop it. It stops on a quote or an unquoted separator other than `-`, unless it reaches the end. |
| Lexer.WordEndAt | src/parser.cpp:211-229 | The word scan stops at the first index where a stopping character stands. |
| Lexer.ClassifyWord | src/parser.cpp:230-258 | A finished word is INTEGER when is_int accepts it, sign included. Otherwise it is FLOAT when is_float accepts it, and otherwise WORD. The text is the word, and the token is well formed. |
| Lexer.PushKeepsTokensOk | src/parser.cpp:130-150 | Each push keeps the parenthesis count equal to LPAREN less RPAREN pushed. No prefix goes negative, every token is well formed, and the literal count grows by one exactly for a STRING_LITERAL. |
| Lexer.QuotesStep | src/parser.cpp:199-204 | Each character adds one to the number of quotes read when it is a quote, and nothing otherwise. |
| Lexer.ClosingQuote | src/parser.cpp:214-216 | A word ended by a quote raises the number of quotes read by exactly one. |
| Lexer.LiteralKeepsInv | src/parser.cpp:214-227 | A literal pushed at a closing quote keeps the invariant: quotes read = quote count + 2 × literals, and the literal holds no quote. |
| Lexer.WordKeepsInv | src/parser.cpp:229-263 | A word ended by a separator keeps the invariant, and its token is well formed. |
| Lexer.WordStopKeepsInv | src/parser.cpp:214-263 | Whatever stops a word, a pass that goes on keeps the invariant. |
| Lexer.ScanWordKeepsInv | src/parser.cpp:211-265 | The word loop keeps the invariant, including when the word reaches the end of the input. |
| Lexer.SkipKeepsInv | src/parser.cpp:152-157 | A blank or an opening quote keeps the invariant. |
| Lexer.SymbolKeepsInv | src/parser.cpp:130-197 | A parenthesis or operator push keeps the invariant. |
| Lexer.StepKeepsInv | src/parser.cpp:129-265 | Every pass of the outer loop that does not fail keeps the invariant. |
| Lexer.LexFromKeepsInv | src/parser.cpp:127-276 | From any state satisfying the invariant, the tokens never close more parentheses than they open and are all well formed. On success they are balanced, and the input holds two quotes per literal. |
| Lexer.StartInv | src/parser.cpp:123-125 | The initial counters satisfy the invariant. |
| Lexer.LexParenBalanced | src/parser.cpp:130-150 | On success, LPAREN and RPAREN are equal in number and no prefix has more RPAREN. Even a failed run never pushes an unmatched RPAREN. |
| Lexer.LexQuoteParity | src/parser.cpp:199-220 | On success the input holds exactly two quotes per STRING_LITERAL. An input with an odd number of quotes always fails. |
| Lexer.LexTokensWellFormed | src/parser.cpp:121-277 | Every pushed token is well formed. Operators and parentheses carry their own character. Word texts hold no blank, quote or `( ) + * / %`. Numeric texts pass their test. Literals hold no quote. |
| Lexer.WordEndShift | src/parser.cpp:211 | The word scan depends only on the input from its start on. |
| Lexer.StepShift | src/parser.cpp:129-265 | A pass depends only on the input from its position on. |
| Lexer.LexShift | src/parser.cpp:127-276 | The run from a position depends only on the input from that position on. |
| Lexer.StepPrefix | src/parser.cpp:129-265 | A pass carries the tokens already pushed through unchanged. |
| Lexer.LexPrefix | src/parser.cpp:127-276 | The run carries the tokens already pushed through unchanged. |
| Lexer.LexBlank | src/parser.cpp:152-157 | In any state, a blank the switch reaches pushes nothing and changes no count or flag; the run goes on over the rest from the same state. |
| Lexer.LexOperator | src/parser.cpp:159-197 | In any state, each of `+ * / %` pushes exactly one one-character token of its own kind and changes no count or flag. |
| Lexer.LexLoneMinus | src/parser.cpp:166-176 | In any state, a `-` that is last, or not followed by a digit, pushes MINUS `"-"` and changes no count or flag. |
| Lexer.LexWord | src/parser.cpp:229-263 | In any state outside a quote, a word ended by a separator is pushed whole with its classification, a `-` before a digit included. Counts and flag are unchanged, and the separator is dispatched next. |
| Lexer.LexQuoted | src/parser.cpp:199-227 | In any state outside a quote with a quote count of at least zero, a quoted text whose first character reaches the word scan (a `-` before a digit included) becomes one STRING_LITERAL without the quotes. Counts and flag are back where they were. |
| Lexer.LexTrailingWord | src/parser.cpp:166-276 | In any state, a word that reaches the end of the input, each `-` in it standing before a digit, pushes nothing. The end-of-input checks on the unchanged counts decide the outcome. |
| Lexer.LexClosingQuote | src/parser.cpp:211-227 | In any state, a word the switch lets through that a quote stops becomes a STRING_LITERAL and the quote is consumed. The quote count goes down by one and the flag flips; a count that would go below zero is fatal at once. This holds outside a quote too, as after `""`. |
| Lexer.LexOpenParen | src/parser.cpp:130-136 | In any state, `(` pushes LPAREN and raises the parenthesis count by one. |
| Lexer.LexCloseParen | src/parser.cpp:138-150 | In any state, `)` fails at once with the tokens so far when no parenthesis is open. Otherwise it pushes RPAREN and lowers the count by one. |
| Lexer.LexQuoteMark | src/parser.cpp:199-204 | In any state, a quote the switch reaches pushes nothing, flips the quote flag and raises the quote count. |
| LexerExamples.LexSum | src/parser.cpp:121-277 | `(+ 1 2)` lexes to LPAREN, PLUS, INTEGER 1, INTEGER 2, RPAREN. |
| LexerExamples.LexQuotedParen | src/parser.cpp:129-136 | The switch ignores the quote flag: `"(x"` pushes LPAREN, then fails at the end with parentheses open. |
| LexerExamples.LexEmptyQuotes | src/parser.cpp:199-204 | `""` raises the quote count to two and fails at the end of the input. |
| LexerExamples.LexUnterminatedQuote | src/parser.cpp:273-276 | An opening quote that is never closed fails at the end of the input with no token. |
| LexerExamples.LexStrayClosingQuote | src/parser.cpp:214-220 | A word ended by a quote with no quote open is fatal. |
| LexerExamples.LexStrayParen | src/parser.cpp:138-145 | A `)` with none open is fatal at once. |
| LexerExamples.LexDroppedWords | src/parser.cpp:166-176 | Of `a-b` only the rescanned `-` survives: `-` does not end a word, and words at the end are dropped. |
| LexerExamples.LexUnclosedWord | src/parser.cpp:130-136 | `(a` pushes LPAREN, drops the word `a` at the end of the input, and fails with a parenthesis open. |
| LexerExamples.LexBlankAfterQuotedParen | src/parser.cpp:130-276 | Inside a quote the switch still pushes `(` and skips the blank after it: `"( b"` gives LPAREN and STRING_LITERAL `b`, then fails with a parenthesis open. |
| LexerExamples.LexQuotedExponent | src/parser.cpp:199-276 | A `+` inside a quote does not end the word: `"1e+5"` lexes to one STRING_LITERAL `1e+5`. |
| LexerExamples.LexQuotedNegative | src/parser.cpp:199-227 | `"-5"` lexes to one STRING_LITERAL `-5`. |
| LexerExamples.LexNegative | src/parser.cpp:166-171 | `(-5)` lexes to LPAREN, INTEGER `-5`, RPAREN. |
| LexerExamples.LexTrailingNegative | src/parser.cpp:166-276 | `-5` at the end of the input is dropped: the run succeeds with no token. |
| LexerExamples.LexWordAfterEmptyQuotes | src/parser.cpp:199-276 | In `""x"` the word `x` is closed by the third quote outside any quote: it becomes STRING_LITERAL `x`, and the run fails at the end with one quote open. |
| Parsing.WordLoop | src/parser.cpp:211-265 | The inner loop, with its branches as written, computes exactly one word step of the scanner. It reports whether the pass was fatal, the tokens pushed, the index the rewind leaves and the new quote state. |
| Parsing.Pass | src/parser.cpp:128-265 | One pass of the outer loop body computes exactly one step of the scanner. |
| Parsing.Parser.constructor | src/parser.cpp:3-8 | A new parser has an empty token list. |
| Parsing.Parser.Tokenize | src/parser.cpp:121-277 | Appends exactly the tokens of `Lex(file)` to the token list, and reports `Lex(file)`'s outcome. On a fatal exit, the tokens pushed before it stay. |
| Parsing.Parser.GetTokenList | src/parser.cpp:279-282 | Returns the token list. |
| Parsing.Parser.Clear | src/parser.cpp:284-287 | Empties the token list. |
| Parsing.Parser.EvalList | src/parser.cpp:61-119 | Drops the head child, which is nothing for no children. Returns NONE for no children or a non-operator head, and otherwise the fold of the remaining children's texts under the head's kind. The node stays valid. |
| Parsing.Parser.EvalAst | src/parser.cpp:45-59 | Leaves null and non-LIST nodes alone. Otherwise the tree under the node becomes `Eval` of the old tree, the nodes touched are the node's own, and it stays a valid tree. |
| Parsing.Parser.EvalChildren | src/parser.cpp:50-52 | Evaluates every child in order, each in place. The node keeps its token and children, and its model becomes the evaluated subtrees. |
| Evaluation.FoldToken | src/parser.cpp:71-116 | The fold gives INTEGER or FLOAT. An operator without a case leaves the count at 0, so it gives INTEGER `"0"`. |
| Evaluation.ListToken | src/parser.cpp:61-119 | The result is NONE exactly when there are no children or the head is not an operator. In that case it is `Token(NONE, "")`, and otherwise it is INTEGER or FLOAT. |
| Evaluation.Eval | src/parser.cpp:45-59 | Non-LIST trees are unchanged. A LIST tree gets a NONE, INTEGER or FLOAT token, and one child fewer unless it had none. |
| Evaluation.EvalRemovesLists | src/parser.cpp:45-59 | In a tree where only lists have children, evaluation leaves no LIST token anywhere. |
| Evaluation.EvalIdempotent | src/parser.cpp:45-59 | Evaluating an evaluated tree changes nothing. |
| Nodes.Node.Valid | src/parser.cpp:45-68 | The invariant of the nodes eval_ast walks: the children of each node are distinct, share no node, never contain the node itself, and the node roots the tree its ghost model holds. |
| Nodes.Retokened | src/parser.cpp:54 | Overwriting a node's token, with nothing below changed, keeps the tree valid. |
| Nodes.Beheaded | src/parser.cpp:68 | Dropping the first child keeps the tree valid. |
| Nodes.ChildTokens | src/parser.cpp:67-68 | The tokens of a valid node's children are the roots of its model's subtrees. |

## Left out

- `read_file` (`src/parser.cpp:22-43`) is not part of this model. It does file I/O and checks the `.yal` extension.
- `parse` (`src/parser.cpp:10-14`) delegates to `AST::generate_tree`, which is not part of this model. The trees `EvalAst` walks are given as input.
- `evaluate` and `print_tokens` only print, so they are left out.
- The `std::cout` messages before each `assert(false)` are left out. The failure case in `Lexer.LexError` names which message it is.
- The numeric body of `eval_list` (`src/parser.cpp:72-116`) is the `fold` parameter. That covers the float accumulation with `std::stof`, the `children.at(0)` checks in the MINUS and DIVIDE cases, the `count - (int)count > 0` test and `std::to_string`. It is floating-point arithmetic, which the model does not compute. For an operator without a case, the model keeps the source's INTEGER `"0"`.
- Membership in `token::operators` is the `isOperator` parameter, because its definition is in a header that is not part of this model.
- Numbers.IsInt: does not model `strtol` overflow. Overflow does not move the end pointer, so is_int does not depend on it.
- Numbers.IsFloat: uses the "C" locale only (radix point `.`, `isspace` set of six characters). It does not model `strtod` overflow or underflow, which do not move the end pointer either.
- Numbers.IsDigit: `std::isdigit` on a `char` with a negative value is undefined behaviour in C. The model treats every character outside `'0'..'9'` as a non-digit.
- Parsing.Parser.Tokenize: `assert(false)` aborts the process in the source. The model instead returns `Fatal(error)` and keeps the tokens pushed up to that point. That is the state the aborted process would have left.
- Parsing.Parser.EvalAst: the recursion is on node pointers whose children form a tree with no sharing, as `Nodes.Node.Valid` states. The tree builder is not part of this model, so shared or cyclic nodes are not modelled.
- `Nodes.Node`: `Repr` and `model` are ghost bookkeeping with no counterpart in `node::Node`.
- Nodes.Node.Valid: `children` holds no null, while `eval_ast` also accepts a null child and returns at once for it. The tree builder is not part of this model, so the model does not say whether it can produce one.
- Lexer.LexWord: stated for words a separator ends outside a quote. A word that a quote stops, inside a quote or not, is covered by Lexer.LexClosingQuote in any state.
- Lexer.LexFrom: `paren_count` and `quote_count` are C++ `int` (`src/parser.cpp:123-124`), and raising one past `INT_MAX` is undefined behaviour. The counts in `Lexer.Scan` are unbounded integers, which differs only on inputs of more than 2^31 characters.
- Lexer.LexQuoted: stated outside a quote, and with a quote count of at least zero, which every state the scanner reaches has (Lexer.Inv). An opening quote reached with the flag already set turns it off, and the text then also ends at separators; LexFrom still covers that run.
- Characters are bytes: a Dafny `char` stands for one byte of the `std::string`. A non-ASCII character is several bytes in the source. None of those bytes is a blank, a quote, a special character or a digit, so each is a word byte either way and the tokens are the same.
- The `fold` parameter always returns a result, while `std::stof` throws on an operand that is not a number, such as the WORD of `(+ a 1)`. `children.at(0)` throws `std::out_of_range` for `(-)` and `(/)` (`src/parser.cpp:84`, `src/parser.cpp:102`). The MINUS and DIVIDE cases test the sign of `children.at(0)` where `children.at(i)` is evidently meant (`src/parser.cpp:86`, `src/parser.cpp:104`), so `(- -5 3)` calls `std::stof("")`, which throws. The uncaught exception ends the program before `eval_ast` returns, which the model does not capture.
- Parsing.Parser.Tokenize: under `NDEBUG`, `assert(false)` (`src/parser.cpp:144`, `219`, `270`, `275`) does nothing and tokenize carries on with a negative count. The model follows a build with assertions enabled.
