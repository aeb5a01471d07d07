/**
 * The compiler's escaped string literals read back: lexing the single-quoted
 * text `escape` produces for a string gives back exactly that string, as one
 * string token. The generated function's source is parsed by the host's
 * `new Function`, not by this lexer; what is shown here is that the expression
 * lexer itself reads `escape`'s output back unchanged.
 */
module EscapeRoundTrip {
  import opened Wrappers
  import opened CharClass
  import opened Lexer
  import opened Compiler
  import LexerProps

  /** Characters whose code unit `stringEscapeFn` can write in four hexadecimal digits. */
  predicate InBasicPlane(s: string) {
    forall k :: 0 <= k < |s| ==> s[k] as int < 0x1_0000
  }

  /** The escaped text of a string literal, quotes included. */
  function EscapeString(s: string): (r: string)
    ensures Escape(Parser.StringLiteral(s)) == Escaped.Code(r)
  {
    "'" + EscapeBody(s) + "'"
  }

  /** Decoding one `\uXXXX` escape written by `stringEscapeFn` restores the character. */
  lemma {:induction false} DecodeStringEscape(c: char)
    requires c as int < 0x1_0000
    ensures IsHex4(StringEscapeFn(c as int)[2..])
    ensures FromCharCode(HexValue(StringEscapeFn(c as int)[2..])) == c
  {
    var e := StringEscapeFn(c as int);
    var n := HexValue(e[2..]);
    assert !(0xD800 <= n <= 0xDFFF);
  }

  /** An unescaped character other than the quote and the backslash is copied as it is. */
  lemma PlainStep(text: string, i: nat, c: char, str: string, raw: string)
    requires i < |text| && text[i] == c && c != '\'' && c != '\\'
    requires |raw| > 0 && raw[0] == '\''
    ensures ReadString(text, i, '\'', str, raw, false) == ReadString(text, i + 1, '\'', str + [c], raw + [c], false)
  {
  }

  /** The closing quote ends the literal with what has been decoded so far. */
  lemma CloseStep(text: string, i: nat, str: string, raw: string)
    requires i < |text| && text[i] == '\''
    requires |raw| > 0 && raw[0] == '\''
    ensures ReadString(text, i, '\'', str, raw, false) == Ok(Closed(Token(raw + ['\''], StringValue(str), false), i + 1))
  {
  }

  /** A `\uXXXX` escape written by `stringEscapeFn` decodes to its character in six steps. */
  lemma EscapeStep(text: string, i: nat, c: char, str: string, raw: string)
    requires c as int < 0x1_0000
    requires i + 6 <= |text| && text[i..i + 6] == StringEscapeFn(c as int)
    requires |raw| > 0 && raw[0] == '\''
    ensures ReadString(text, i, '\'', str, raw, false) ==
            ReadString(text, i + 6, '\'', str + [c], raw + ['\\', 'u'], false)
  {
    var e := StringEscapeFn(c as int);
    assert text[i] == e[0] == '\\' && text[i + 1] == e[1] == 'u';
    DecodeStringEscape(c);
    assert Substring(text, i + 2, i + 6) == e[2..];
    assert (raw + ['\\']) + ['u'] == raw + ['\\', 'u'];
  }

  lemma SplitSuffix(text: string, i: nat, head: string, rest: string)
    requires i <= |text| && text[i..] == head + rest
    ensures i + |head| <= |text| && text[i..i + |head|] == head && text[i + |head|..] == rest
  {
    assert text[i..i + |head|] == text[i..][..|head|];
    assert text[i + |head|..] == text[i..][|head|..];
  }

  /** The first character of `s` needs escaping: reading its six characters decodes it. */
  lemma EscapedHead(text: string, i: nat, s: string, str: string, raw: string)
    requires i <= |text| && text[i..] == EscapeBody(s) + "'"
    requires |raw| > 0 && raw[0] == '\''
    requires s != [] && !IsPlainChar(s[0]) && s[0] as int < 0x1_0000
    ensures i + 6 <= |text| && text[i + 6..] == EscapeBody(s[1..]) + "'"
    ensures ReadString(text, i, '\'', str, raw, false) ==
            ReadString(text, i + 6, '\'', str + [s[0]], raw + ['\\', 'u'], false)
  {
    var e := StringEscapeFn(s[0] as int);
    BodyHead(s);
    SplitSuffix(text, i, e, EscapeBody(s[1..]) + "'");
    EscapeStep(text, i, s[0], str, raw);
  }

  lemma BodyHead(s: string)
    requires s != [] && !IsPlainChar(s[0]) && s[0] as int < 0x1_0000
    ensures EscapeBody(s) + "'" == StringEscapeFn(s[0] as int) + (EscapeBody(s[1..]) + "'")
  {
    var e, t := StringEscapeFn(s[0] as int), EscapeBody(s[1..]);
    assert EscapeBody(s) == e + t;
    Regroup(e, t, "'");
  }

  lemma Regroup(a: string, b: string, c: string)
    ensures (a + b) + c == a + (b + c)
  {
  }

  /** The quotes around a body: the first character is the opening quote, and the rest is the body and the closing one. */
  lemma QuoteWrap(body: string)
    ensures var text := "'" + body + "'";
      0 < |text| && text[0] == '\'' && text[1..] == body + "'"
  {
  }

  lemma AppendHead(str: string, s: string)
    requires s != []
    ensures (str + [s[0]]) + s[1..] == str + s
  {
    assert s == [s[0]] + s[1..];
  }

  /**
   * Reading the rest of a single-quoted literal whose remaining text is the
   * escaped body of `s` followed by the closing quote decodes exactly `s`.
   */
  lemma {:induction false} ReadEscapedBody(text: string, i: nat, s: string, str: string, raw: string)
    requires i <= |text| && text[i..] == EscapeBody(s) + "'"
    requires |raw| > 0 && raw[0] == '\''
    requires InBasicPlane(s)
    ensures var r := ReadString(text, i, '\'', str, raw, false);
      r.Ok? && r.value.Closed? && r.value.next == |text|
      && r.value.token.value == StringValue(str + s) && !r.value.token.identifier
    decreases s
  {
    if s == [] {
      assert text[i..] == "'";
      CloseStep(text, i, str, raw);
      assert str + s == str;
    } else {
      var c := s[0];
      assert InBasicPlane(s[1..]);
      var tail := EscapeBody(s[1..]);
      if IsPlainChar(c) {
        assert EscapeBody(s) == [c] + tail;
        SplitSuffix(text, i, [c], tail + "'");
        PlainStep(text, i, c, str, raw);
        ReadEscapedBody(text, i + 1, s[1..], str + [c], raw + [c]);
        AppendHead(str, s);
      } else {
        EscapedHead(text, i, s, str, raw);
        ReadEscapedBody(text, i + 6, s[1..], str + [c], raw + ['\\', 'u']);
        AppendHead(str, s);
      }
    }
  }

  /** The escaped text is read as one string literal that spans all of it and holds `s`. */
  lemma EscapedStringStep(s: string) returns (tok: Token)
    requires InBasicPlane(s)
    ensures LexStep(Corrected, EscapeString(s), 0) == Ok(Step(Some(tok), |EscapeString(s)|))
    ensures tok.value == StringValue(s) && !tok.identifier
  {
    tok := EscapedScan(s);
    ClosedLiteralStep(EscapeString(s), tok);
  }

  /** `readString` after the opening quote of an escaped literal closes at the end with the original string. */
  lemma EscapedScan(s: string) returns (tok: Token)
    requires InBasicPlane(s)
    ensures 0 < |EscapeString(s)| && EscapeString(s)[0] == '\''
    ensures ReadString(EscapeString(s), 1, '\'', "", "'", false) == Ok(Closed(tok, |EscapeString(s)|))
    ensures tok.value == StringValue(s) && !tok.identifier
  {
    var text := EscapeString(s);
    QuoteWrap(EscapeBody(s));
    ReadEscapedBody(text, 1, s, "", "'");
    tok := ReadString(text, 1, '\'', "", "'", false).value.token;
    assert "" + s == s;
  }

  /** A single-quoted literal that `readString` closes at the end of the text is read in one step. */
  lemma ClosedLiteralStep(text: string, tok: Token)
    requires 0 < |text| && text[0] == '\''
    requires ReadString(text, 1, '\'', "", "'", false) == Ok(Closed(tok, |text|))
    ensures LexStep(Corrected, text, 0) == Ok(Step(Some(tok), |text|))
  {
    assert StringStep(text, 0) == Ok(Step(Some(tok), |text|));
    LexerProps.QuoteStep(Corrected, text, 0);
  }

  /** `escape` followed by the lexer is the identity on strings: one string token holding `s`. */
  lemma EscapeThenLex(s: string)
    requires InBasicPlane(s)
    ensures var r := Lex(EscapeString(s));
      r.Ok? && |r.value| == 1 && r.value[0].value == StringValue(s) && !r.value[0].identifier
  {
    var text := EscapeString(s);
    var tok := EscapedStringStep(s);
    assert LexFrom(Corrected, text, |text|) == Ok([]);
    LexerProps.Cons(Corrected, text, 0, tok, |text|, []);
    LexerProps.OneToken(tok);
  }
}
