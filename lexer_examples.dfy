/** Worked runs of the scanner on small inputs, among them the behaviours of
    Parser::tokenize that follow from its loops rather than from any stated
    rule. */
module LexerExamples {
  import opened Tokens
  import opened Numbers
  import opened Lexer

  /** A well-formed expression is lexed into its five tokens. */
  lemma LexSum()
    ensures Lex("(+ 1 2)") == Lexed([Token(LParen, "("), Token(Plus, "+"),
                                     Token(Integer, "1"), Token(Integer, "2"),
                                     Token(RParen, ")")])
  {
    var f := "(+ 1 2)";
    var lp, pl := Token(LParen, "("), Token(Plus, "+");
    var s1 := Scan(1, 1, 0, false, [lp]);
    var s2 := Scan(2, 1, 0, false, [lp, pl]);
    var s3 := Scan(3, 1, 0, false, [lp, pl]);
    assert Step(f, Start) == Next(s1);
    assert Step(f, s1) == Next(s2);
    assert Step(f, s2) == Next(s3);
    SumArguments();
    assert LexFrom(f, s2) == LexFrom(f, s3);
    assert LexFrom(f, s1) == LexFrom(f, s2);
  }

  /** The arguments and the closing parenthesis of `(+ 1 2)`. */
  lemma SumArguments()
    ensures LexFrom("(+ 1 2)", Scan(3, 1, 0, false, [Token(LParen, "("), Token(Plus, "+")])) ==
            Lexed([Token(LParen, "("), Token(Plus, "+"), Token(Integer, "1"), Token(Integer, "2"),
                   Token(RParen, ")")])
  {
    var f := "(+ 1 2)";
    var lp, pl := Token(LParen, "("), Token(Plus, "+");
    var one, two := Token(Integer, "1"), Token(Integer, "2");
    assert StrtolEnd("1") == 1 && StrtolEnd("2") == 1;
    assert f[3..4] == "1" && f[5..6] == "2";
    assert WordToken("1") == one && WordToken("2") == two;
    assert WordEnd(f, 3, false) == 4;
    assert WordEnd(f, 5, false) == 6;
    var s3 := Scan(3, 1, 0, false, [lp, pl]);
    var s4 := Scan(4, 1, 0, false, [lp, pl, one]);
    var s5 := Scan(5, 1, 0, false, [lp, pl, one]);
    var s6 := Scan(6, 1, 0, false, [lp, pl, one, two]);
    var s7 := Scan(7, 0, 0, false, [lp, pl, one, two, Token(RParen, ")")]);
    assert Step(f, s3) == Next(s4);
    assert Step(f, s4) == Next(s5);
    assert Step(f, s5) == Next(s6);
    assert Step(f, s6) == Next(s7);
    assert LexFrom(f, s6) == LexFrom(f, s7);
    assert LexFrom(f, s5) == LexFrom(f, s6);
    assert LexFrom(f, s4) == LexFrom(f, s5);
  }

  /** The switch dispatches `(` even inside a quote, so the parenthesis count
      is left open by a quoted `(`. */
  lemma LexQuotedParen()
    ensures Lex("\"(x\"") == LexFailed(EofUnbalancedParen,
                                      [Token(LParen, "("), Token(StringLiteral, "x")])
  {
    var f := "\"(x\"";
    var lp := Token(LParen, "(");
    assert WordEnd(f, 2, true) == 3;
    assert f[2..3] == "x";
    var s1 := Scan(1, 0, 1, true, []);
    var s2 := Scan(2, 1, 1, true, [lp]);
    var s3 := Scan(4, 1, 0, false, [lp, Token(StringLiteral, "x")]);
    assert Step(f, Start) == Next(s1);
    assert Step(f, s1) == Next(s2);
    assert Step(f, s2) == Next(s3);
    assert LexFrom(f, s2) == LexFrom(f, s3);
    assert LexFrom(f, s1) == LexFrom(f, s2);
  }

  /** Two quotes in a row are both dispatched by the switch and raise the quote
      count to two, which the end-of-input check rejects. */
  lemma LexEmptyQuotes()
    ensures Lex("\"\"") == LexFailed(EofUnbalancedQuote, [])
  {
    var f := "\"\"";
    var s1 := Scan(1, 0, 1, true, []);
    var s2 := Scan(2, 0, 2, false, []);
    assert Step(f, Start) == Next(s1);
    assert Step(f, s1) == Next(s2);
    assert LexFrom(f, s1) == LexFrom(f, s2);
  }

  /** An opening quote never closed: the quoted word reaches the end of the
      input, is dropped and rescanned, and the quote count is still one. */
  lemma LexUnterminatedQuote()
    ensures Lex("\"ab") == LexFailed(EofUnbalancedQuote, [])
  {
    var f := "\"ab";
    assert WordEnd(f, 1, true) == 3;
    assert WordEnd(f, 2, true) == 3;
    var s1 := Scan(1, 0, 1, true, []);
    var s2 := Scan(2, 0, 1, true, []);
    var s3 := Scan(3, 0, 1, true, []);
    assert Step(f, Start) == Next(s1);
    assert Step(f, s1) == Next(s2);
    assert Step(f, s2) == Next(s3);
    assert LexFrom(f, s2) == LexFrom(f, s3);
    assert LexFrom(f, s1) == LexFrom(f, s2);
  }

  /** After `""` the quote flag is off again and the count is two, so the word
      `x` outside any quote is closed by the next quote into a literal, and
      the count left at one fails at the end. */
  lemma LexWordAfterEmptyQuotes()
    ensures Lex("\"\"x\"") == LexFailed(EofUnbalancedQuote, [Token(StringLiteral, "x")])
  {
    var s1 := Start.(inQuote := true, quotes := 1);
    calc {
      Lex("\"\"x\"");
      { assert "\"\"x\"" == "\"" + "\"x\""; }
      LexFrom("\"" + "\"x\"", Start);
      { LexQuoteMark("\"x\"", Start); }
      LexFrom("\"x\"", s1);
      { assert "\"x\"" == "\"" + "x\""; LexQuoteMark("x\"", s1); }
      LexFrom("x\"", Start.(quotes := 2));
      { WordClosedByQuote(); }
      LexFailed(EofUnbalancedQuote, [Token(StringLiteral, "x")]);
    }
  }

  /** Inside a quote the switch still handles `(` itself and then skips the
      blank after it, so only `b` reaches the word scan: `"( b"` pushes LPAREN
      and STRING_LITERAL `b`, and fails with the parenthesis open. */
  lemma LexBlankAfterQuotedParen()
    ensures Lex("\"( b\"") ==
            LexFailed(EofUnbalancedParen, [Token(LParen, "("), Token(StringLiteral, "b")])
  {
    calc {
      Lex("\"( b\"");
      { assert "\"( b\"" == "\"" + "( b\""; }
      LexFrom("\"" + "( b\"", Start);
      { LexQuoteMark("( b\"", Start); }
      LexFrom("( b\"", Start.(inQuote := true, quotes := 1));
      { ParenThenBlankInQuote(); }
      LexFailed(EofUnbalancedParen, [Token(LParen, "("), Token(StringLiteral, "b")]);
    }
  }

  /** Inside the quote, `(` is pushed and the blank after it skipped. */
  lemma ParenThenBlankInQuote()
    ensures LexFrom("( b\"", Start.(inQuote := true, quotes := 1)) ==
            LexFailed(EofUnbalancedParen, [Token(LParen, "("), Token(StringLiteral, "b")])
  {
    var s1 := Start.(inQuote := true, quotes := 1);
    var s2 := Start.(inQuote := true, quotes := 1, parens := 1, tokens := [Token(LParen, "(")]);
    calc {
      LexFrom("( b\"", s1);
      { assert "( b\"" == "(" + " b\"";
        LexOpenParen(" b\"", s1);
        assert s1.(parens := s1.parens + 1, tokens := s1.tokens + [Token(LParen, "(")]) == s2; }
      LexFrom(" b\"", s2);
      { assert " b\"" == [' '] + "b\""; LexBlank(' ', "b\"", s2); }
      LexFrom("b\"", s2);
      { QuotedWordAfterParen(); }
      LexFailed(EofUnbalancedParen, [Token(LParen, "("), Token(StringLiteral, "b")]);
    }
  }

  /** The word `b` inside the quote is closed by the quote, and the count of
      open parentheses decides the end of the run. */
  lemma QuotedWordAfterParen()
    ensures LexFrom("b\"", Start.(inQuote := true, quotes := 1, parens := 1, tokens := [Token(LParen, "(")])) ==
            LexFailed(EofUnbalancedParen, [Token(LParen, "("), Token(StringLiteral, "b")])
  {
    var s2 := Start.(inQuote := true, quotes := 1, parens := 1, tokens := [Token(LParen, "(")]);
    assert "b\"" == "b" + "\"" + "";
    assert !StopsWord('b', true);
    LexClosingQuote("b", "", s2);
    var s3 := Start.(parens := 1, tokens := [Token(LParen, "("), Token(StringLiteral, "b")]);
    assert LexFrom("", s3) == Finish(s3);
  }

  /** A quoted `1e+5` is one STRING_LITERAL: the `+` that ends a word outside
      a quote does not end it inside one. */
  lemma LexQuotedExponent()
    ensures Lex("\"1e+5\"") == Lexed([Token(StringLiteral, "1e+5")])
  {
    assert "\"1e+5\"" == "\"" + "1e+5" + "\"" + "";
    LexQuoted("1e+5", "", Start);
    var s := Start.(tokens := [Token(StringLiteral, "1e+5")]);
    assert LexFrom("", s) == Finish(s);
  }

  /** After the empty quotes, the word `x` is closed by the third quote,
      which leaves one quote open at the end. */
  lemma WordClosedByQuote()
    ensures LexFrom("x\"", Start.(quotes := 2)) ==
            LexFailed(EofUnbalancedQuote, [Token(StringLiteral, "x")])
  {
    var s2 := Start.(quotes := 2);
    assert "x\"" == "x" + "\"" + "";
    LexClosingQuote("x", "", s2);
    var s3 := Start.(inQuote := true, quotes := 1, tokens := [Token(StringLiteral, "x")]);
    assert LexFrom("", s3) == Finish(s3);
  }

  /** A word ended by a quote with no quote open takes the count below zero. */
  lemma LexStrayClosingQuote()
    ensures Lex("abc\"") == LexFailed(UnbalancedQuote, [])
  {
    var f := "abc\"";
    assert WordEnd(f, 0, false) == 3;
    assert Step(f, Start) == Halt(UnbalancedQuote);
  }

  /** A closing parenthesis with none open is fatal at once. */
  lemma LexStrayParen()
    ensures Lex(")") == LexFailed(UnbalancedParen, [])
  {
    assert Step(")", Start) == Halt(UnbalancedParen);
  }

  /** `-` does not end a word, and a word that reaches the end of the input is
      dropped, so of `a-b` only the `-`, reached again on the rescan, survives. */
  lemma LexDroppedWords()
    ensures Lex("a-b") == Lexed([Token(Minus, "-")])
  {
    var f := "a-b";
    assert WordEnd(f, 0, false) == 3;
    assert WordEnd(f, 2, false) == 3;
    var s1 := Scan(1, 0, 0, false, []);
    var s2 := Scan(2, 0, 0, false, [Token(Minus, "-")]);
    var s3 := Scan(3, 0, 0, false, [Token(Minus, "-")]);
    assert Step(f, Start) == Next(s1);
    assert Step(f, s1) == Next(s2);
    assert Step(f, s2) == Next(s3);
    assert LexFrom(f, s2) == LexFrom(f, s3);
    assert LexFrom(f, s1) == LexFrom(f, s2);
  }

  /** A word after an open parenthesis that reaches the end of the input is
      dropped, and the open parenthesis is reported at the end. */
  lemma LexUnclosedWord()
    ensures Lex("(a") == LexFailed(EofUnbalancedParen, [Token(LParen, "(")])
  {
    assert "(a" == "(" + "a";
    LexOpenParen("a", Start);
    LexTrailingWord("a", Start.(parens := 1, tokens := [Token(LParen, "(")]));
  }

  /** A quoted `-5` is a string literal, not a number. */
  lemma LexQuotedNegative()
    ensures Lex("\"-5\"") == Lexed([Token(StringLiteral, "-5")])
  {
    assert "\"-5\"" == "\"" + "-5" + "\"" + "";
    LexQuoted("-5", "", Start);
  }

  /** A whole program that is a negative number pushes nothing: the `-` goes to
      the word loop, which reaches the end of the input. */
  lemma LexTrailingNegative()
    ensures Lex("-5") == Lexed([])
  {
    LexTrailingWord("-5", Start);
  }

  /** A `-` before a digit starts a word, which is a negative integer. */
  lemma LexNegative()
    ensures Lex("(-5)") == Lexed([Token(LParen, "("), Token(Integer, "-5"), Token(RParen, ")")])
  {
    var f := "(-5)";
    var lp, n := Token(LParen, "("), Token(Integer, "-5");
    assert WordEnd(f, 1, false) == 3;
    assert f[1..3] == "-5" && "-5"[1..] == "5";
    assert StrtolEnd("5") == 1;
    assert WordToken("-5") == n;
    var s1 := Scan(1, 1, 0, false, [lp]);
    var s2 := Scan(3, 1, 0, false, [lp, n]);
    var s3 := Scan(4, 0, 0, false, [lp, n, Token(RParen, ")")]);
    assert Step(f, Start) == Next(s1);
    assert Step(f, s1) == Next(s2);
    assert Step(f, s2) == Next(s3);
    assert LexFrom(f, s2) == LexFrom(f, s3);
    assert LexFrom(f, s1) == LexFrom(f, s2);
  }
}
