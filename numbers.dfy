/** The numeric predicates the lexer classifies words with: Parser::is_int,
    which asks strtol (ISO C11 section 7.22.1.4) to consume the whole string,
    and Parser::is_float, which asks the same of strtod (ISO C11 section
    7.22.1.3), both in the "C" locale.

    A std::string may hold NUL characters, but `c_str()` hands C only the
    characters before the first one, and the end pointer strtol and strtod
    leave is compared with NUL: both are modelled. */
module Numbers {

  predicate IsDigit(c: char) { '0' <= c <= '9' }

  predicate IsSign(c: char) { c == '+' || c == '-' }

  predicate AllDigits(s: string) { forall i :: 0 <= i < |s| ==> IsDigit(s[i]) }

  /** A base-10 subject sequence of strtol: an optional sign and one or more digits. */
  predicate IsDecimalInteger(t: string)
  {
    var digits := if |t| > 0 && IsSign(t[0]) then t[1..] else t;
    |digits| > 0 && AllDigits(digits)
  }

  /** The number of decimal digits at the start of `s`. */
  function DigitRun(s: string): (n: nat)
    ensures n <= |s|
    ensures n < |s| ==> !IsDigit(s[n])
  {
    if |s| > 0 && IsDigit(s[0]) then 1 + DigitRun(s[1..]) else 0
  }

  lemma {:induction false} DigitRunIsDigits(s: string)
    ensures AllDigits(s[..DigitRun(s)])
    decreases |s|
  {
    if |s| > 0 && IsDigit(s[0]) {
      var n := DigitRun(s[1..]);
      DigitRunIsDigits(s[1..]);
      var run := s[..1 + n];
      forall i | 0 <= i < |run| ensures IsDigit(run[i]) {
        if i > 0 { assert run[i] == s[1..][..n][i - 1]; }
      }
    }
  }

  /** The offset strtol(s, &end, 10) stores in `end`, for a string that does not
      start with white space (the only kind is_int passes on): past the sign
      and the digits that follow it, or 0 when no digit follows. Overflow does
      not move `end`, so it is not modelled. */
  function StrtolEnd(s: string): (e: nat)
    ensures e <= |s|
  {
    var k := if |s| > 0 && IsSign(s[0]) then 1 else 0;
    var d := DigitRun(s[k..]);
    if d == 0 then 0 else k + d
  }

  /** strtol stops after the longest subject sequence: what it consumed is an
      optionally signed run of digits not followed by another digit, and when it
      consumes nothing no prefix is such a run. */
  lemma StrtolEndIsLongest(s: string)
    ensures var e := StrtolEnd(s);
      (e > 0 ==> IsDecimalInteger(s[..e]) && (e < |s| ==> !IsDigit(s[e]))) &&
      (e == 0 ==> forall n :: 0 < n <= |s| ==> !IsDecimalInteger(s[..n]))
  {
    var k := if |s| > 0 && IsSign(s[0]) then 1 else 0;
    var d := DigitRun(s[k..]);
    DigitRunIsDigits(s[k..]);
    if d > 0 {
      assert s[..k + d][k..] == s[k..][..d];
    } else {
      forall n | 0 < n <= |s| ensures !IsDecimalInteger(s[..n]) {
        assert s[..n][k..] == s[k..][..n - k];
        if k < n { assert s[..n][k] == s[k..][0]; }
      }
    }
  }

  /** Digits read up to the end of the C string: every character before the
      first NUL (or the end) is a digit, and there is at least one digit when
      `seen` is false. */
  predicate DigitsToNul(t: string, seen: bool)
    decreases |t|
  {
    if t == [] || t[0] == '\0' then seen
    else IsDigit(t[0]) && DigitsToNul(t[1..], true)
  }

  /** Parser::is_int: the first character is a digit or a sign, and after the
      sign nothing but digits, at least one, comes before the terminating NUL. */
  predicate IsInt(s: string)
  {
    |s| > 0 && (IsDigit(s[0]) || IsSign(s[0])) &&
    DigitsToNul(if IsSign(s[0]) then s[1..] else s, false)
  }

  lemma {:induction false} DigitsToNulIsRun(t: string, seen: bool)
    ensures var d := DigitRun(t);
      DigitsToNul(t, seen) <==> (seen || d > 0) && (d == |t| || t[d] == '\0')
    decreases |t|
  {
    if t != [] && t[0] != '\0' && IsDigit(t[0]) {
      DigitsToNulIsRun(t[1..], true);
      var d := DigitRun(t[1..]);
      if d < |t[1..]| { assert t[1 + d] == t[1..][d]; }
    }
  }

  /** is_int as written: a first character that is a digit or a sign, and an
      end pointer from strtol that rests on the terminating NUL. */
  lemma IsIntAsWritten(s: string)
    ensures IsInt(s) <==>
      |s| > 0 && (IsDigit(s[0]) || s[0] == '-' || s[0] == '+') &&
      (StrtolEnd(s) == |s| || s[StrtolEnd(s)] == '\0')
  {
    if |s| > 0 {
      var k := if IsSign(s[0]) then 1 else 0;
      var body := s[k..];
      DigitsToNulIsRun(body, false);
      var d := DigitRun(body);
      if d > 0 && d < |body| { assert s[k + d] == body[d]; }
    }
  }

  /** A sign alone, a radix point and the empty string are not integers; a
      sign before digits is. */
  lemma IsIntExamples()
    ensures !IsInt("") && !IsInt("-") && !IsInt("+") && !IsInt("1.5")
    ensures IsInt("-12") && IsInt("+7")
  {
    assert "-"[1..] == [] && "+"[1..] == [];
    assert "1.5"[1..] == ".5";
    assert "-12"[1..] == "12" && "12"[1..] == "2" && "2"[1..] == [];
    assert "+7"[1..] == "7" && "7"[1..] == [];
  }

  /** The characters of `s` that C sees through `c_str()`: those before the first NUL. */
  function CString(s: string): (t: string)
    ensures |t| <= |s| && t == s[..|t|]
    ensures forall i :: 0 <= i < |t| ==> t[i] != '\0'
    ensures |t| < |s| ==> s[|t|] == '\0'
  {
    if |s| == 0 || s[0] == '\0' then [] else [s[0]] + CString(s[1..])
  }

  /** Digits to the NUL are the C string being all digits. */
  lemma {:induction false} DigitsToNulIsCString(t: string, seen: bool)
    ensures DigitsToNul(t, seen) <==> (seen || |CString(t)| > 0) && AllDigits(CString(t))
    decreases |t|
  {
    if t != [] && t[0] != '\0' {
      DigitsToNulIsCString(t[1..], true);
      var c := CString(t);
      assert c == [t[0]] + CString(t[1..]);
      assert forall i :: 0 < i < |c| ==> c[i] == CString(t[1..])[i - 1];
    }
  }

  /** is_int holds exactly when the C string is, as a whole, an optionally signed
      run of decimal digits. */
  lemma IsIntIsWholeInteger(s: string)
    ensures IsInt(s) <==> IsDecimalInteger(CString(s))
  {
    if |s| > 0 && s[0] != '\0' {
      var c := CString(s);
      assert c[0] == s[0];
      if IsSign(s[0]) {
        assert c[1..] == CString(s[1..]);
        DigitsToNulIsCString(s[1..], false);
      } else {
        DigitsToNulIsCString(s, false);
      }
    }
  }

  /** isspace in the "C" locale: the white space strtod skips first. */
  predicate IsCSpace(c: char)
  {
    c == ' ' || c == '\t' || c == '\n' || c == '\U{000B}' || c == '\U{000C}' || c == '\r'
  }

  predicate IsHexDigit(c: char)
  {
    IsDigit(c) || 'a' <= c <= 'f' || 'A' <= c <= 'F'
  }

  /** A character of the n-char-sequence of NAN(...). */
  predicate IsNChar(c: char)
  {
    IsDigit(c) || 'a' <= c <= 'z' || 'A' <= c <= 'Z' || c == '_'
  }

  function Lower(c: char): char
  {
    if 'A' <= c <= 'Z' then (c as int + 32) as char else c
  }

  /** Where strtod stands after reading a prefix of its input, when that prefix
      can still begin a subject sequence. After optional white space and an
      optional sign, the subject sequence is one of: decimal digits with at
      most one radix point and at least one digit, then optionally `e` or `E`,
      an optional sign and digits; `0x` or `0X`, hexadecimal digits with at
      most one radix point and at least one digit, then optionally `p` or `P`,
      an optional sign and decimal digits; INF or INFINITY; NAN or
      NAN(n-char-sequence); the letters of the names in either case. */
  datatype Phase =
    | Space                  // only white space read
    | Signed                 // white space and a sign
    | Zero                   // a first digit 0, which may open `0x`
    | Whole                   // decimal digits, no point yet
    | Point                  // a point with no digit before it
    | Fraction               // a point and at least one digit
    | Exp                    // the exponent marker
    | ExpSign                // the exponent marker and a sign
    | ExpDigits              // the exponent marker, an optional sign and digits
    | Hex                    // `0x`
    | HexWhole               // `0x` and hexadecimal digits, no point yet
    | HexPoint               // `0x` and a point with no digit before it
    | HexFraction            // `0x`, a point and at least one digit
    | Bin                    // the binary exponent marker
    | BinSign                // the binary exponent marker and a sign
    | BinDigits              // the binary exponent marker, an optional sign and digits
    | Infinity(letters: nat) // the first `letters` letters of INFINITY
    | Nan(letters: nat)      // the first `letters` letters of NAN
    | NanChars               // NAN( and an n-char-sequence
    | NanClosed              // NAN(n-char-sequence)

  /** One step of strtod's reading: to a phase, or stuck when no subject
      sequence begins with what has been read. */
  datatype Move = Stuck | To(phase: Phase)

  /** The phases in which everything read so far is a whole subject sequence. */
  predicate Accepting(q: Phase)
  {
    q == Zero || q == Whole || q == Fraction || q == ExpDigits ||
    q == HexWhole || q == HexFraction || q == BinDigits ||
    q == Infinity(3) || q == Infinity(8) || q == Nan(3) || q == NanClosed
  }

  /** The phase after reading `c` in phase `q`, or Stuck when no subject
      sequence begins with what has been read. */
  function Advance(q: Phase, c: char): Move
  {
    match q
    case Space | Signed =>
      if q == Space && IsCSpace(c) then To(Space)
      else if q == Space && IsSign(c) then To(Signed)
      else if c == '0' then To(Zero)
      else if IsDigit(c) then To(Whole)
      else if c == '.' then To(Point)
      else if Lower(c) == 'i' then To(Infinity(1))
      else if Lower(c) == 'n' then To(Nan(1))
      else Stuck
    case Zero | Whole =>
      if q == Zero && (c == 'x' || c == 'X') then To(Hex)
      else if IsDigit(c) then To(Whole)
      else if c == '.' then To(Fraction)
      else if c == 'e' || c == 'E' then To(Exp)
      else Stuck
    case Point => if IsDigit(c) then To(Fraction) else Stuck
    case Fraction =>
      if IsDigit(c) then To(Fraction)
      else if c == 'e' || c == 'E' then To(Exp)
      else Stuck
    case Exp => if IsSign(c) then To(ExpSign) else if IsDigit(c) then To(ExpDigits) else Stuck
    case ExpSign | ExpDigits => if IsDigit(c) then To(ExpDigits) else Stuck
    case Hex =>
      if IsHexDigit(c) then To(HexWhole) else if c == '.' then To(HexPoint) else Stuck
    case HexWhole =>
      if IsHexDigit(c) then To(HexWhole)
      else if c == '.' then To(HexFraction)
      else if c == 'p' || c == 'P' then To(Bin)
      else Stuck
    case HexPoint => if IsHexDigit(c) then To(HexFraction) else Stuck
    case HexFraction =>
      if IsHexDigit(c) then To(HexFraction)
      else if c == 'p' || c == 'P' then To(Bin)
      else Stuck
    case Bin => if IsSign(c) then To(BinSign) else if IsDigit(c) then To(BinDigits) else Stuck
    case BinSign | BinDigits => if IsDigit(c) then To(BinDigits) else Stuck
    case Infinity(n) =>
      if n < 8 && Lower(c) == "infinity"[n] then To(Infinity(n + 1)) else Stuck
    case Nan(n) =>
      if n < 3 && Lower(c) == "nan"[n] then To(Nan(n + 1))
      else if n == 3 && c == '(' then To(NanChars)
      else Stuck
    case NanChars =>
      if IsNChar(c) then To(NanChars) else if c == ')' then To(NanClosed) else Stuck
    case NanClosed => Stuck
  }

  /** Reading `s` from phase `q` up to its end or its first NUL, the end of the
      C string, ends in an accepting phase. */
  predicate Reads(q: Phase, s: string)
    decreases |s|
  {
    if s == [] || s[0] == '\0' then Accepting(q)
    else match Advance(q, s[0])
      case Stuck => false
      case To(next) => Reads(next, s[1..])
  }

  /** Parser::is_float: strtod converts something and stops at the terminating
      NUL. strtod takes the longest prefix of the expected form, so it stops at
      the NUL exactly when all of the C string has that form. */
  predicate IsFloat(s: string)
  {
    Reads(Space, s)
  }

  /** Digits read in a phase that has seen only digits leave it accepting. */
  lemma {:induction false} DigitsAreRead(q: Phase, d: string)
    requires q == Zero || q == Whole
    requires AllDigits(d)
    ensures Reads(q, d)
    decreases |d|
  {
    if d != [] {
      assert AllDigits(d[1..]) by {
        forall i | 0 <= i < |d[1..]| ensures IsDigit(d[1..][i]) { assert d[1..][i] == d[i + 1]; }
      }
      DigitsAreRead(Whole, d[1..]);
    }
  }

  /** Reading continues the same way past the end of the C string. */
  lemma {:induction false} ReadsCString(q: Phase, s: string)
    ensures Reads(q, s) == Reads(q, CString(s))
    decreases |s|
  {
    if s != [] && s[0] != '\0' {
      assert CString(s)[1..] == CString(s[1..]);
      if Advance(q, s[0]).To? {
        ReadsCString(Advance(q, s[0]).phase, s[1..]);
      }
    }
  }

  /** An optionally signed run of digits is read to the end. */
  lemma IntegerIsRead(t: string)
    requires IsDecimalInteger(t)
    ensures Reads(Space, t)
  {
    var b := if IsSign(t[0]) then t[1..] else t;
    assert AllDigits(b[1..]) by {
      forall i | 0 <= i < |b[1..]| ensures IsDigit(b[1..][i]) { assert b[1..][i] == b[i + 1]; }
    }
    DigitsAreRead(Whole, b[1..]);
    DigitsAreRead(Zero, b[1..]);
    if IsSign(t[0]) {
      assert t[1..][1..] == b[1..];
      assert Reads(Signed, b);
    }
  }

  /** Whatever is_int accepts, is_float accepts too; the lexer's order of the
      two tests is what makes such words INTEGER rather than FLOAT. */
  lemma IntIsFloat(s: string)
    requires IsInt(s)
    ensures IsFloat(s)
  {
    IsIntIsWholeInteger(s);
    IntegerIsRead(CString(s));
    ReadsCString(Space, s);
  }

  /** A leading `-` before a digit does not change is_int: `-12` is an integer
      exactly when `12` is. */
  lemma NegatedInt(w: string)
    requires |w| > 0 && IsDigit(w[0])
    ensures IsInt("-" + w) <==> IsInt(w)
  {
    assert ("-" + w)[1..] == w;
  }

  /** Nor does it change is_float. */
  lemma NegatedFloat(w: string)
    requires |w| > 0 && IsDigit(w[0])
    ensures IsFloat("-" + w) <==> IsFloat(w)
  {
    assert ("-" + w)[1..] == w;
    assert Reads(Space, "-" + w) == Reads(Signed, w);
    assert Advance(Space, w[0]) == Advance(Signed, w[0]);
    assert Reads(Space, w) == Reads(Signed, w);
  }
}
