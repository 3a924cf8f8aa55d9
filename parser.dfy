/** The Parser object of the Yal interpreter: its token list and the
    operations that fill, read and empty it, and the evaluator that folds a
    syntax tree in place. */
module Parsing {
  import opened Tokens
  import opened Numbers
  import opened Lexer
  import opened Evaluation
  import opened Nodes

  /** How tokenize ends: normally, or at one of its fatal assertions. */
  datatype Status = Ok | Fatal(error: LexError)

  function StatusOf(r: LexResult): Status
  {
    match r
    case Lexed(_) => Ok
    case LexFailed(e, _) => Fatal(e)
  }

  /** The inner loop of tokenize, entered at index `i` on a character the
      switch let through: it looks for the quote or the character that ends the
      word, and reports whether a closing quote was fatal, the tokens it
      pushes, the index the outer loop's increment moves on from, and the new
      quote count and flag. It follows the run of the scanner on any state `st`
      at that index. */
  method WordLoop(file: string, i: nat, quoteCount: int, inQuote: bool, ghost st: Scan)
    returns (fatal: bool, pushed: seq<Token>, last: nat, quotes: int, quoted: bool)
    requires i < |file| && StartsWord(file, i)
    requires st.pos == i && st.quotes == quoteCount && st.inQuote == inQuote
    ensures i <= last < |file|
    ensures fatal ==> ScanWord(file, st) == Halt(UnbalancedQuote)
    ensures !fatal ==> ScanWord(file, st) == Next(Scan(last + 1, st.parens, quotes, quoted, st.tokens + pushed))
  {
    fatal, pushed, last, quotes, quoted := false, [], i, quoteCount, inQuote;
    var j := i;
    while j < |file|
      invariant i <= j <= |file|
      invariant forall m :: i <= m < j ==> !StopsWord(file[m], inQuote)
      decreases |file| - j
    {
      var c := file[j];
      if c == '"' {
        WordEndAt(file, i, inQuote, j);
        quoted := !inQuote;
        quotes := quoteCount - 1;
        if quotes < 0 {
          fatal := true;
          return;
        }
        pushed := [Token(StringLiteral, file[i..j])];
        last := j;
        return;
      } else if (IsBlank(c) || IsSpecial(c)) && !inQuote && c != '-' {
        WordEndAt(file, i, inQuote, j);
        var wordName := file[i..j];
        var tokType := TokenType.None;
        var isNegative := wordName[0] == '-';
        if isNegative {
          var absWord := wordName[1..];
          if IsInt(absWord) {
            tokType := Integer;
          } else if IsFloat(absWord) {
            tokType := Float;
          } else {
            tokType := Word;
          }
        } else {
          if IsInt(wordName) {
            tokType := Integer;
          } else if IsFloat(wordName) {
            tokType := Float;
          } else {
            tokType := Word;
          }
        }
        pushed := [Token(tokType, wordName)];
        last := j - 1;
        return;
      }
      j := j + 1;
    }
    WordEndAt(file, i, inQuote, |file|);
  }

  /** One pass of the outer loop of tokenize, at index `i`: the dispatching
      switch, with the word loop as its default. It reports whether the pass
      was fatal, the tokens it pushes, the index the loop's increment moves on
      from, and the new parenthesis count, quote count and quote flag, exactly
      as one step of the scanner on any state `st` at that index. */
  method Pass(file: string, i: nat, parenCount: int, quoteCount: int, inQuote: bool, ghost st: Scan)
    returns (status: Status, pushed: seq<Token>, last: nat, parens: int, quotes: int, quoted: bool)
    requires i < |file|
    requires st == Scan(i, parenCount, quoteCount, inQuote, st.tokens)
    ensures i <= last < |file|
    ensures status.Fatal? ==> Step(file, st) == Halt(status.error)
    ensures status.Ok? ==> Step(file, st) == Next(Scan(last + 1, parens, quotes, quoted, st.tokens + pushed))
  {
    status, pushed, last, parens, quotes, quoted := Ok, [], i, parenCount, quoteCount, inQuote;
    var first := file[i];
    if first == '(' {
      parens := parenCount + 1;
      pushed := [Token(LParen, [first])];
    } else if first == ')' {
      parens := parenCount - 1;
      if parens < 0 {
        status := Fatal(UnbalancedParen);
        return;
      }
      pushed := [Token(RParen, [first])];
    } else if first == ' ' || first == '\n' || first == '\t' {
    } else if first == '+' {
      pushed := [Token(Plus, [first])];
    } else if first == '-' && !(i < |file| - 1 && IsDigit(file[i + 1])) {
      pushed := [Token(Minus, [first])];
    } else if first == '*' {
      pushed := [Token(Multiply, [first])];
    } else if first == '/' {
      pushed := [Token(Divide, [first])];
    } else if first == '%' {
      pushed := [Token(Modulo, [first])];
    } else if first == '"' {
      quoted := !inQuote;
      quotes := quoteCount + 1;
    } else {
      var fatal;
      fatal, pushed, last, quotes, quoted := WordLoop(file, i, quoteCount, inQuote, st);
      if fatal {
        status := Fatal(UnbalancedQuote);
      }
    }
  }

  class Parser {
    /** Parser::token_list: every token pushed since the last clear. */
    var tokenList: seq<Token>

    constructor()
      ensures tokenList == []
    {
      tokenList := [];
    }

    /** Parser::get_token_list. */
    method GetTokenList() returns (tokens: seq<Token>)
      ensures tokens == tokenList
    {
      tokens := tokenList;
    }

    /** Parser::clear. */
    method Clear()
      modifies this
      ensures tokenList == []
    {
      tokenList := [];
    }

    /** Parser::tokenize: appends the tokens of `file` to the token list. On a
        fatal condition it stops with the tokens pushed up to that point. */
    method Tokenize(file: string) returns (status: Status)
      modifies this
      ensures tokenList == old(tokenList) + Lex(file).tokens
      ensures status == StatusOf(Lex(file))
    {
      ghost var base := tokenList;
      ghost var tokens: seq<Token> := [];
      var parenCount, quoteCount, inQuote := 0, 0, false;
      var i := 0;
      while i < |file|
        invariant i <= |file|
        invariant tokenList == base + tokens
        invariant LexFrom(file, Scan(i, parenCount, quoteCount, inQuote, tokens)) == Lex(file)
        decreases |file| - i
      {
        ghost var st := Scan(i, parenCount, quoteCount, inQuote, tokens);
        var passed, pushed, last, parens, quotes, quoted := Pass(file, i, parenCount, quoteCount, inQuote, st);
        if passed.Fatal? {
          Halted(file, st, passed.error);
          return passed;
        }
        LexNext(file, st, Scan(last + 1, parens, quotes, quoted, tokens + pushed));
        assert base + (tokens + pushed) == tokenList + pushed;
        tokenList := tokenList + pushed;
        tokens := tokens + pushed;
        parenCount, quoteCount, inQuote := parens, quotes, quoted;
        i := last + 1;
      }
      Finished(file, Scan(i, parenCount, quoteCount, inQuote, tokens));
      if parenCount != 0 {
        return Fatal(EofUnbalancedParen);
      }
      if quoteCount != 0 {
        return Fatal(EofUnbalancedQuote);
      }
      status := Ok;
    }

    /** Parser::eval_list, on the node whose children it is passed by
        reference: drops the head child and returns the token that replaces
        the node's own. */
    method EvalList(rt: Node, isOperator: TokenType -> bool, fold: Fold) returns (tok: Token)
      requires rt.Valid()
      modifies rt
      ensures rt.Valid() && rt.Repr == old(rt.Repr) && rt.tok == old(rt.tok)
      ensures tok == ListToken(TokensOf(old(rt.children)), isOperator, fold)
      ensures tok == ListToken(Roots(old(rt.model).kids), isOperator, fold)
      ensures rt.children == if old(rt.children) == [] then [] else old(rt.children)[1..]
      ensures rt.model == Tree(rt.tok, if old(rt.model).kids == [] then [] else old(rt.model).kids[1..])
    {
      ChildTokens(rt);
      tok := NoneToken;
      if rt.children == [] {
        return;
      }
      var funcTok := rt.children[0].tok;
      rt.children := rt.children[1..];
      rt.model := Tree(rt.tok, rt.model.kids[1..]);
      Beheaded(rt);
      if isOperator(funcTok.kind) {
        tok := FoldToken(funcTok.kind, Vals(TokensOf(rt.children)), fold);
      }
    }

    /** Parser::eval_ast: folds every list node below `rt`, children first. */
    method EvalAst(rt: Node?, isOperator: TokenType -> bool, fold: Fold)
      requires rt != null ==> rt.Valid()
      modifies if rt == null then {} else rt.Repr
      ensures rt != null ==> rt.Valid() && rt.Repr == old(rt.Repr)
      ensures rt != null ==> rt.model == Eval(old(rt.model), isOperator, fold)
      decreases if rt == null then {} else rt.Repr, 1
    {
      if rt == null {
        return;
      }
      if rt.tok.kind != List {
        return;
      }
      ghost var evaluated := EvalAll(rt.model.kids, isOperator, fold);
      ghost var expected := Eval(rt.model, isOperator, fold);
      assert expected == Tree(ListToken(Roots(evaluated), isOperator, fold), if evaluated == [] then [] else evaluated[1..]);
      EvalChildren(rt, isOperator, fold);
      var tok := EvalList(rt, isOperator, fold);
      label Listed:
      rt.tok := tok;
      rt.model := Tree(tok, rt.model.kids);
      Retokened@Listed(rt);
    }

    /** The loop of eval_ast over the children of a list node: each child is
        evaluated in turn; the node keeps its token and its children. */
    method EvalChildren(rt: Node, isOperator: TokenType -> bool, fold: Fold)
      requires rt.Valid()
      modifies rt.Repr
      ensures rt.Valid() && rt.Repr == old(rt.Repr)
      ensures rt.tok == old(rt.tok) && rt.children == old(rt.children)
      ensures rt.model == Tree(rt.tok, EvalAll(old(rt.model).kids, isOperator, fold))
      decreases rt.Repr, 0
    {
      ghost var evaluated := EvalAll(rt.model.kids, isOperator, fold);
      var kids := rt.children;
      var i := 0;
      while i < |kids|
        invariant 0 <= i <= |kids|
        invariant forall k :: 0 <= k < |kids| ==> kids[k].Repr == old(kids[k].Repr)
        invariant forall k :: 0 <= k < |kids| ==> kids[k].Valid()
        invariant forall k :: 0 <= k < i ==> kids[k].model == evaluated[k]
        invariant forall k :: i <= k < |kids| ==> kids[k].model == old(rt.model).kids[k]
        modifies rt.Repr - {rt}
      {
        label BeforeChild:
        EvalAst(kids[i], isOperator, fold);
        forall k | 0 <= k < |kids| && k != i
          ensures kids[k].Valid() && kids[k].model == old@BeforeChild(kids[k].model)
        {
          Untouched@BeforeChild(kids[k]);
        }
        i := i + 1;
      }
      rt.model := Tree(rt.tok, evaluated);
      Regrown(rt);
    }
  }
}
