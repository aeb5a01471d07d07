/**
 * Properties of the lexer.
 *
 * The main one concerns the end of the text. The corrected lexer reads the
 * end of the text as a character that is neither a digit nor a sign, exactly
 * as it reads a space, so a trailing space never changes the tokens:
 * `TrailingSpaceInvariant`. The lexer as written answers `isDigit(false)`
 * with true at the end, and breaks this: `1e` lexes as one number token `1e`
 * but `1e ` as the number `1` and the identifier `e`, and a lone `.` lexes as
 * a number token without a digit (`ExponentAtEndAsWritten`, `TrailingDotAsWritten`).
 */
module LexerProps {
  import opened Wrappers
  import opened CharClass
  import opened Lexer

  function Padded(text: string): string {
    text + " "
  }

  // ---------------------------------------------------------------------------
  // A trailing space does not change the corrected lexer's output

  lemma {:induction false} ReadNumberPadded(text: string, i: nat, number: string)
    requires i <= |text|
    ensures ReadNumber(Corrected, Padded(text), i, number) == ReadNumber(Corrected, text, i, number)
    decreases |text| - i
  {
    var t := Padded(text);
    if i == |text| {
      assert t[i] == ' ' && LowerAscii(' ') == ' ';
    } else {
      assert t[i] == text[i];
      assert Peek(t, i, 1) == Peek(text, i, 1) || (Peek(t, i, 1) == Some(' ') && Peek(text, i, 1) == None);
      ReadNumberPadded(text, i + 1, number + [LowerAscii(text[i])]);
    }
  }

  /** At the end of the text the padding space is read into an unterminated literal. */
  lemma ReadStringPaddedEnd(text: string, delim: char, str: string, raw: string, escape: bool)
    requires |raw| > 0 && raw[0] == delim && IsQuote(delim)
    ensures ReadString(Padded(text), |text|, delim, str, raw, escape) == Ok(Unterminated)
  {
    var t := Padded(text);
    assert t[|text|] == ' ';
    assert ReadString(t, |text| + 1, delim, if escape then str + [EscapeReplacement(' ')] else str + [' '], raw + [' '], false)
        == Ok(Unterminated);
  }

  /** The four characters after a `\u` are hexadecimal in the padded text exactly when they are in the text, and then the same. */
  lemma PaddedHex(text: string, i: nat)
    requires i < |text|
    ensures var hex, hex' := Substring(text, i + 1, i + 5), Substring(Padded(text), i + 1, i + 5);
      (IsHex4(hex') <==> IsHex4(hex)) && (IsHex4(hex) ==> hex' == hex)
  {
    var t := Padded(text);
    var hex, hex' := Substring(text, i + 1, i + 5), Substring(t, i + 1, i + 5);
    if i + 5 <= |text| {
      assert hex' == hex;
    } else {
      assert !IsHex4(hex);
      assert !IsHex4(hex') by {
        if i + 5 == |t| {
          assert hex'[3] == t[|text|] == ' ';
        }
      }
    }
  }

  lemma {:induction false} ReadStringPadded(text: string, i: nat, delim: char, str: string, raw: string, escape: bool)
    requires i <= |text|
    requires |raw| > 0 && raw[0] == delim && IsQuote(delim)
    ensures ReadString(Padded(text), i, delim, str, raw, escape) == ReadString(text, i, delim, str, raw, escape)
    decreases |text| - i
  {
    var t := Padded(text);
    if i == |text| {
      ReadStringPaddedEnd(text, delim, str, raw, escape);
    } else {
      var ch := text[i];
      assert t[i] == ch;
      if escape && ch == 'u' {
        var hex := Substring(text, i + 1, i + 5);
        PaddedHex(text, i);
        if IsHex4(hex) {
          Hex4Bound(hex);
          ReadStringPadded(text, i + 5, delim, str + [FromCharCode(HexValue(hex))], raw + [ch], false);
        }
      } else if escape {
        ReadStringPadded(text, i + 1, delim, str + [EscapeReplacement(ch)], raw + [ch], false);
      } else if ch == delim {
      } else if ch == '\\' {
        ReadStringPadded(text, i + 1, delim, str, raw + [ch], true);
      } else {
        ReadStringPadded(text, i + 1, delim, str + [ch], raw + [ch], false);
      }
    }
  }

  lemma {:induction false} IdentEndPadded(text: string, i: nat)
    requires i <= |text|
    ensures IdentEnd(Padded(text), i) == IdentEnd(text, i)
    decreases |text| - i
  {
    var t := Padded(text);
    if i == |text| {
      assert t[i] == ' ';
    } else {
      assert t[i] == text[i];
      IdentEndPadded(text, i + 1);
    }
  }

  lemma NoOperatorEndsInSpace(s: string)
    requires |s| > 0 && s[|s| - 1] == ' '
    ensures s !in Operators
  {
  }

  lemma OperatorAtPadded(text: string, i: nat)
    requires i < |text|
    ensures OperatorAt(Padded(text), i) == OperatorAt(text, i)
  {
    var t := Padded(text);
    forall k | 1 <= k <= 3
      ensures OperatorOfLength(t, i, k) <==> OperatorOfLength(text, i, k)
      ensures i + k <= |text| ==> t[i..i + k] == text[i..i + k]
    {
      if i + k <= |text| {
        assert t[i..i + k] == text[i..i + k];
      } else if i + k == |t| {
        NoOperatorEndsInSpace(t[i..i + k]);
      }
    }
  }

  /**
   * One turn of the corrected loop is the same with a trailing space, except
   * that an unterminated string literal now also swallows the space.
   */
  lemma StartsNumberPadded(text: string, i: nat)
    requires i < |text|
    ensures Padded(text)[i] == text[i]
    ensures StartsNumber(Corrected, Padded(text), i) == StartsNumber(Corrected, text, i)
  {
    var t := Padded(text);
    assert Peek(t, i, 1) == Peek(text, i, 1) || (Peek(t, i, 1) == Some(' ') && Peek(text, i, 1) == None);
  }

  lemma NumberStepPadded(text: string, i: nat)
    requires i < |text| && StartsNumber(Corrected, text, i)
    ensures StartsNumber(Corrected, Padded(text), i)
    ensures NumberStep(Corrected, Padded(text), i) == NumberStep(Corrected, text, i)
  {
    StartsNumberPadded(text, i);
    ReadNumberPadded(text, i, "");
  }

  lemma OperatorStepPadded(text: string, i: nat)
    requires i < |text|
    ensures OperatorStep(Padded(text), i) == OperatorStep(text, i)
  {
    OperatorAtPadded(text, i);
  }

  lemma LexStepPadded(text: string, i: nat)
    requires i < |text|
    ensures var r, r' := LexStep(Corrected, text, i), LexStep(Corrected, Padded(text), i);
      r' == r || (r == Ok(Step(None, |text|)) && r' == Ok(Step(None, |text| + 1)))
  {
    var t := Padded(text);
    StartsNumberPadded(text, i);
    if StartsNumber(Corrected, text, i) {
      NumberStepPadded(text, i);
    } else if IsQuote(text[i]) {
      ReadStringPadded(text, i + 1, text[i], "", [text[i]], false);
    } else if IsPunctuation(text[i]) {
    } else if IsIdentStart(text[i]) {
      IdentEndPadded(text, i);
      var j := IdentEnd(text, i);
      assert t[i..j] == text[i..j];
    } else if IsWhitespace(text[i]) {
    } else {
      OperatorStepPadded(text, i);
    }
  }

  lemma {:induction false} LexFromPadded(text: string, i: nat)
    requires i <= |text|
    ensures LexFrom(Corrected, Padded(text), i) == LexFrom(Corrected, text, i)
    decreases |text| - i
  {
    var t := Padded(text);
    if i == |text| {
      assert IsWhitespace(t[i]);
      assert LexFrom(Corrected, t, i + 1) == Ok([]);
    } else {
      LexStepPadded(text, i);
      var r := LexStep(Corrected, text, i);
      if r.Ok? && LexStep(Corrected, t, i) == r {
        LexFromPadded(text, r.value.next);
      } else if r.Ok? {
        assert LexFrom(Corrected, t, |text| + 1) == Ok([]);
      }
    }
  }

  /** With the end of the text read as no digit, a trailing space never changes the tokens or the error. */
  lemma TrailingSpaceInvariant(text: string)
    ensures Lex(text + " ") == Lex(text)
  {
    LexFromPadded(text, 0);
  }

  // ---------------------------------------------------------------------------
  // Assembling token lists

  /** A quote always starts a string literal. */
  lemma QuoteStep(mode: Mode, text: string, i: nat)
    requires i < |text| && IsQuote(text[i])
    ensures LexStep(mode, text, i) == StringStep(text, i)
  {
    assert !IsDigit(text[i]) && text[i] != '.';
  }

  lemma Cons(mode: Mode, text: string, i: nat, tok: Token, j: nat, rest: seq<Token>)
    requires i < |text| && j <= |text|
    requires LexStep(mode, text, i) == Ok(Step(Some(tok), j))
    requires LexFrom(mode, text, j) == Ok(rest)
    ensures LexFrom(mode, text, i) == Ok([tok] + rest)
  {
  }

  lemma OneToken(a: Token)
    ensures [a] + [] == [a]
  {
  }

  lemma TwoTokens(a: Token, b: Token)
    ensures [a] + [b] == [a, b]
  {
  }

  // ---------------------------------------------------------------------------
  // The lexer as written, at the end of the text

  lemma ReadExponentAtEnd(mode: Mode)
    ensures ReadNumber(mode, "1e", 0, "") == if mode == AsWritten then Ok(("1e", 2)) else Ok(("1", 1))
  {
    var t := "1e";
    assert LowerAscii('1') == '1' && LowerAscii('e') == 'e';
    assert "" + ['1'] == "1" && "1" + ['e'] == "1e";
    assert Peek(t, 1, 1) == None;
    if mode == AsWritten {
      assert ReadNumber(mode, t, 2, "1e") == Ok(("1e", 2));
      assert ReadNumber(mode, t, 1, "1") == Ok(("1e", 2));
    } else {
      assert ReadNumber(mode, t, 1, "1") == Ok(("1", 1));
    }
  }

  lemma ReadExponentBeforeSpace(mode: Mode)
    ensures ReadNumber(mode, "1e ", 0, "") == Ok(("1", 1))
  {
    var t := "1e ";
    assert LowerAscii('1') == '1' && LowerAscii('e') == 'e';
    assert "" + ['1'] == "1";
    assert Peek(t, 1, 1) == Some(' ');
    assert ReadNumber(mode, t, 1, "1") == Ok(("1", 1));
  }

  /** The identifier `e` at position 1, then (for `1e `) a space. */
  lemma IdentifierE(mode: Mode, t: string)
    requires t == "1e" || t == "1e "
    ensures LexFrom(mode, t, 1) == Ok([Token("e", NoValue, true)])
  {
    assert IdentEnd(t, 2) == 2;
    assert IdentEnd(t, 1) == 2 && t[1..2] == "e";
    assert LexStep(mode, t, 1) == Ok(Step(Some(Token("e", NoValue, true)), 2));
    if t == "1e " {
      assert LexStep(mode, t, 2) == Ok(Step(None, 3));
    }
    assert LexFrom(mode, t, 2) == Ok([]);
    Cons(mode, t, 1, Token("e", NoValue, true), 2, []);
    OneToken(Token("e", NoValue, true));
  }

  /** A text starting with a digit begins with the number token `readNumber` reads. */
  lemma LeadingNumber(mode: Mode, text: string, number: string, j: nat)
    requires 0 < |text| && IsDigit(text[0])
    requires ReadNumber(mode, text, 0, "") == Ok((number, j))
    ensures LexStep(mode, text, 0) == Ok(Step(Some(Token(number, NumberText(number), false)), j))
  {
  }

  /** `1` then the identifier `e`: how both lexers read `1e `, and the corrected one `1e`. */
  lemma NumberOneThenE(mode: Mode, t: string)
    requires t == "1e " || (t == "1e" && mode == Corrected)
    ensures LexFrom(mode, t, 0) == Ok([Token("1", NumberText("1"), false), Token("e", NoValue, true)])
  {
    var one, e := Token("1", NumberText("1"), false), Token("e", NoValue, true);
    if t == "1e " {
      ReadExponentBeforeSpace(mode);
    } else {
      ReadExponentAtEnd(mode);
    }
    assert ReadNumber(mode, t, 0, "") == Ok(("1", 1));
    LeadingNumber(mode, t, "1", 1);
    IdentifierE(mode, t);
    Cons(mode, t, 0, one, 1, [e]);
    TwoTokens(one, e);
  }

  /**
   * `1e` as written: the `e` is taken as an exponent marker because the end of
   * the text counts as a digit, while `1e ` lexes as the number `1` and the
   * identifier `e`.
   */
  lemma ExponentAtEndAsWritten()
    ensures LexAsWritten("1e") == Ok([Token("1e", NumberText("1e"), false)])
    ensures LexAsWritten("1e ") == Ok([Token("1", NumberText("1"), false), Token("e", NoValue, true)])
  {
    var t := "1e";
    ReadExponentAtEnd(AsWritten);
    LeadingNumber(AsWritten, t, "1e", 2);
    Cons(AsWritten, t, 0, Token("1e", NumberText("1e"), false), 2, []);
    OneToken(Token("1e", NumberText("1e"), false));
    NumberOneThenE(AsWritten, "1e ");
  }

  /** The corrected lexer reads `1e` as both lexers read `1e `. */
  lemma ExponentAtEndCorrected()
    ensures Lex("1e") == Ok([Token("1", NumberText("1"), false), Token("e", NoValue, true)])
  {
    NumberOneThenE(Corrected, "1e");
  }

  /** A lone `.` as written is a number token with no digit in it (its value is `NaN`). */
  lemma TrailingDotAsWritten()
    ensures LexAsWritten(".") == Ok([Token(".", NumberText("."), false)])
    ensures !HasDigit(Token(".", NumberText("."), false))
  {
    var t := ".";
    assert StartsNumber(AsWritten, t, 0);
    assert LowerAscii('.') == '.' && "" + ['.'] == ".";
    assert ReadNumber(AsWritten, t, 1, ".") == Ok((".", 1));
    assert ReadNumber(AsWritten, t, 0, "") == Ok((".", 1));
    assert LexStep(AsWritten, t, 0) == Ok(Step(Some(Token(".", NumberText("."), false)), 1));
    Cons(AsWritten, t, 0, Token(".", NumberText("."), false), 1, []);
    OneToken(Token(".", NumberText("."), false));
  }

  /** The corrected lexer reads a lone `.` as the punctuation token. */
  lemma TrailingDotCorrected()
    ensures Lex(".") == Ok([Token(".", NoValue, false)])
  {
    var t := ".";
    assert !StartsNumber(Corrected, t, 0) && IsPunctuation(t[0]);
    assert LexStep(Corrected, t, 0) == Ok(Step(Some(Token(".", NoValue, false)), 1));
    Cons(Corrected, t, 0, Token(".", NoValue, false), 1, []);
    OneToken(Token(".", NoValue, false));
  }

  // ---------------------------------------------------------------------------
  // Other lexical behaviour

  /** An unterminated string literal yields no token and no error. */
  lemma UnterminatedStringIsDropped()
    ensures Lex("'ab") == Ok([])
  {
    var t := "'ab";
    assert ReadString(t, 3, '\'', "ab", "'ab", false) == Ok(Unterminated);
    assert ReadString(t, 2, '\'', "a", "'a", false) == Ok(Unterminated);
    assert ReadString(t, 1, '\'', "", "'", false) == Ok(Unterminated);
    assert LexStep(Corrected, t, 0) == Ok(Step(None, 3));
  }

  /** The longest operator wins: `===` is one token, not `==` followed by `=`. */
  lemma LongestOperator()
    ensures OperatorStep("a===b", 1) == Ok(Step(Some(Token("===", NoValue, false)), 4))
  {
    var t := "a===b";
    assert t[1..4] == "===";
    assert OperatorOfLength(t, 1, 3);
  }

  /** A sign after an exponent marker must be followed by a digit. */
  lemma DanglingExponentSign()
    ensures Lex("1e+") == Err(InvalidExponent)
    ensures LexAsWritten("1e+") == Err(InvalidExponent)
  {
    var t := "1e+";
    assert LowerAscii('1') == '1' && LowerAscii('e') == 'e' && LowerAscii('+') == '+';
    assert "" + ['1'] == "1" && "1" + ['e'] == "1e";
    assert Peek(t, 2, 1) == None;
    assert ReadNumber(Corrected, t, 2, "1e") == Err(InvalidExponent);
    assert ReadNumber(Corrected, t, 0, "") == Err(InvalidExponent);
    assert ReadNumber(AsWritten, t, 2, "1e") == Err(InvalidExponent);
    assert ReadNumber(AsWritten, t, 0, "") == Err(InvalidExponent);
  }

  /** A character that starts nothing is rejected. */
  lemma UnexpectedCharacterRejected()
    ensures Lex("a&b") == Err(UnexpectedCharacter('&'))
  {
    var t := "a&b";
    assert t[1..2] == "&" && t[1..3] == "&b" && 1 + 3 > |t|;
    assert !OperatorOfLength(t, 1, 1) && !OperatorOfLength(t, 1, 2) && !OperatorOfLength(t, 1, 3);
    assert !HasOwnRule(Corrected, t, 1);
    assert LexFrom(Corrected, t, 1) == Err(UnexpectedCharacter('&'));
    assert IsIdentStart(t[0]) && !IsIdentPart(t[1]);
    assert LexStep(Corrected, t, 0).Ok? && LexStep(Corrected, t, 0).value.next == 1;
  }

  // ---------------------------------------------------------------------------
  // Escapes inside a string literal

  /** `'\c'` with any `c` but `u` is one string token holding what the escape table makes of `c`. */
  lemma SimpleEscapeLexes(c: char)
    requires c != 'u'
    ensures Lex(['\'', '\\', c, '\'']) == Ok([Token(['\'', '\\', c, '\''], StringValue([EscapeReplacement(c)]), false)])
  {
    var t := ['\'', '\\', c, '\''];
    assert ['\''] + ['\\'] == ['\'', '\\'] && ['\'', '\\'] + [c] == ['\'', '\\', c] && ['\'', '\\', c] + ['\''] == t;
    assert "" + [EscapeReplacement(c)] == [EscapeReplacement(c)];
    assert ReadString(t, 3, '\'', [EscapeReplacement(c)], ['\'', '\\', c], false)
        == Ok(Closed(Token(t, StringValue([EscapeReplacement(c)]), false), 4));
    assert ReadString(t, 2, '\'', "", ['\'', '\\'], true)
        == Ok(Closed(Token(t, StringValue([EscapeReplacement(c)]), false), 4));
    assert ReadString(t, 1, '\'', "", "'", false)
        == Ok(Closed(Token(t, StringValue([EscapeReplacement(c)]), false), 4));
    assert LexStep(Corrected, t, 0) == Ok(Step(Some(Token(t, StringValue([EscapeReplacement(c)]), false)), 4));
    assert LexFrom(Corrected, t, 4) == Ok([]);
    Cons(Corrected, t, 0, Token(t, StringValue([EscapeReplacement(c)]), false), 4, []);
    OneToken(Token(t, StringValue([EscapeReplacement(c)]), false));
  }

  /**
   * `'\uXXXX'` with four hexadecimal digits is one string token holding the
   * character they name. The token's text leaves the four digits out, as
   * `rawString` never sees them.
   */
  lemma UnicodeEscapeLexes(hex: string)
    requires IsHex4(hex)
    ensures HexValue(hex) < 0x1_0000
    ensures Lex(['\'', '\\', 'u'] + hex + ['\''])
         == Ok([Token(['\'', '\\', 'u', '\''], StringValue([FromCharCode(HexValue(hex))]), false)])
  {
    Hex4Bound(hex);
    var t := ['\'', '\\', 'u'] + hex + ['\''];
    var value := StringValue([FromCharCode(HexValue(hex))]);
    assert Substring(t, 3, 7) == hex by { assert t[3..7] == hex; }
    assert t[1] == '\\' && t[2] == 'u' && t[7] == '\'';
    assert ['\''] + ['\\'] == ['\'', '\\'] && ['\'', '\\'] + ['u'] == ['\'', '\\', 'u'];
    assert ['\'', '\\', 'u'] + ['\''] == ['\'', '\\', 'u', '\''];
    assert "" + [FromCharCode(HexValue(hex))] == [FromCharCode(HexValue(hex))];
    assert ReadString(t, 7, '\'', [FromCharCode(HexValue(hex))], ['\'', '\\', 'u'], false)
        == Ok(Closed(Token(['\'', '\\', 'u', '\''], value, false), 8));
    assert ReadString(t, 2, '\'', "", ['\'', '\\'], true) == Ok(Closed(Token(['\'', '\\', 'u', '\''], value, false), 8));
    assert ReadString(t, 1, '\'', "", "'", false) == Ok(Closed(Token(['\'', '\\', 'u', '\''], value, false), 8));
    assert LexStep(Corrected, t, 0) == Ok(Step(Some(Token(['\'', '\\', 'u', '\''], value, false)), 8));
    assert LexFrom(Corrected, t, 8) == Ok([]);
    Cons(Corrected, t, 0, Token(['\'', '\\', 'u', '\''], value, false), 8, []);
    OneToken(Token(['\'', '\\', 'u', '\''], value, false));
  }

  /** `\u` followed by anything but four hexadecimal digits throws "Invalid unicode escape". */
  lemma BadUnicodeEscapeRejected(tail: string)
    requires |tail| < 4 || !IsHex4(tail[..4])
    ensures Lex(['\'', '\\', 'u'] + tail) == Err(InvalidUnicodeEscape)
  {
    var t := ['\'', '\\', 'u'] + tail;
    if |tail| >= 4 {
      assert Substring(t, 3, 7) == tail[..4] by { assert t[3..7] == tail[..4]; }
    }
    assert !IsHex4(Substring(t, 3, 7));
    assert ReadString(t, 1, '\'', "", "'", false) == Err(InvalidUnicodeEscape);
    assert LexStep(Corrected, t, 0) == Err(InvalidUnicodeEscape);
  }
}
