/**
 * The hand-written expression lexer (`Lexer` in src/parse.js): text in, a flat
 * sequence of `{text, value?, identifier?}` tokens out, or the first lexical error.
 *
 * The source's `peek()` answers `false` past the end of the text, and its
 * `isDigit(false)` holds, because `'0' <= false && false <= '9'` compares the
 * number 0 with 0 and 9. `Mode` keeps both readings: `AsWritten` follows the
 * source, `Corrected` treats the end of the text as no digit at all. `Lex`, the
 * entry point the parser uses, is the corrected lexer; `LexAsWritten` is kept
 * to exhibit the difference.
 */
module Lexer {
  import opened Wrappers
  import opened CharClass

  /** `value` of a token: nothing, a number (kept as its lower-cased text), or a decoded string. */
  datatype TokenValue = NoValue | NumberText(digits: string) | StringValue(s: string)

  datatype Token = Token(text: string, value: TokenValue, identifier: bool)

  datatype LexError = UnexpectedCharacter(ch: char) | InvalidExponent | InvalidUnicodeEscape

  datatype Mode = AsWritten | Corrected

  // ---------------------------------------------------------------------------
  // Look-ahead

  /** `peek(n)`: the character `n` places after `index`, if there is one; `n || 1` makes `peek(0)` look one place ahead. */
  function Peek(text: string, index: nat, n: nat): (r: Option<char>)
    ensures n > 0 ==> (r.Some? <==> index + n < |text|)
    ensures n > 0 && r.Some? ==> r.value == text[index + n]
    ensures n == 0 ==> (r.Some? <==> index + 1 < |text|)
    ensures n == 0 && r.Some? ==> r.value == text[index + 1]
  {
    var ahead := if n == 0 then 1 else n;
    if index + ahead < |text| then Some(text[index + ahead]) else None
  }

  /** `isDigit(peek())`: past the end, the source's comparison of `false` succeeds. */
  predicate PeekIsDigit(mode: Mode, p: Option<char>) {
    match p
    case Some(c) => IsDigit(c)
    case None => mode == AsWritten
  }

  /** `isExpOperator(peek())`, with the same reading of the end of the text. */
  predicate PeekIsExpOperator(mode: Mode, p: Option<char>) {
    match p
    case Some(c) => IsExpOperator(c)
    case None => mode == AsWritten
  }

  // ---------------------------------------------------------------------------
  // Numbers

  /** A character that can appear in the text of a number token. */
  predicate IsNumberChar(c: char) {
    IsDigit(c) || c == '.' || c == 'e' || c == '+' || c == '-'
  }

  /**
   * `readNumber` from position `i`, having collected `number` so far: the number
   * text is the lower-cased slice of the input it covers, and it stops only at
   * the end of the text or at a character that is neither `.` nor a digit.
   */
  function ReadNumber(mode: Mode, text: string, i: nat, number: string): (r: Result<(string, nat), LexError>)
    requires i <= |text|
    ensures r.Ok? ==> i <= r.value.1 <= |text|
    ensures r.Ok? ==> r.value.0 == number + LowerAsciiString(text[i..r.value.1])
    ensures r.Ok? ==> r.value.1 == |text| || (LowerAscii(text[r.value.1]) != '.' && !IsDigit(LowerAscii(text[r.value.1])))
    ensures r.Ok? ==> forall k :: |number| <= k < |r.value.0| ==> IsNumberChar(r.value.0[k])
    ensures r.Err? ==> r.error == InvalidExponent
    decreases |text| - i
  {
    if i == |text| then
      LowerEmpty(text, i);
      Ok((number, i))
    else
      var ch := LowerAscii(text[i]);
      var next := Peek(text, i, 1);
      var prevIsE := |number| > 0 && number[|number| - 1] == 'e';
      if ch == '.' || IsDigit(ch)
         || (ch == 'e' && PeekIsExpOperator(mode, next))
         || (IsExpOperator(ch) && prevIsE && next.Some? && IsDigit(next.value)) then
        var r := ReadNumber(mode, text, i + 1, number + [ch]);
        if r.Ok? then
          NumberAppend(number, text, i, r.value.1);
          r
        else
          r
      else if IsExpOperator(ch) && prevIsE then
        Err(InvalidExponent)
      else
        LowerEmpty(text, i);
        Ok((number, i))
  }

  lemma LowerEmpty(text: string, i: nat)
    requires i <= |text|
    ensures LowerAsciiString(text[i..i]) == []
  {
  }

  /** Appending one lower-cased character, then the lower-cased rest, is appending the lower-cased slice. */
  lemma NumberAppend(number: string, text: string, i: nat, j: nat)
    requires i < j <= |text|
    ensures (number + [LowerAscii(text[i])]) + LowerAsciiString(text[i + 1..j]) == number + LowerAsciiString(text[i..j])
  {
    LowerCons(text, i, j);
  }

  lemma LowerCons(text: string, i: nat, j: nat)
    requires i < j <= |text|
    ensures LowerAsciiString(text[i..j]) == [LowerAscii(text[i])] + LowerAsciiString(text[i + 1..j])
  {
    var a := LowerAsciiString(text[i..j]);
    var b := [LowerAscii(text[i])] + LowerAsciiString(text[i + 1..j]);
    assert |a| == |b|;
    forall k | 0 <= k < |a|
      ensures a[k] == b[k]
    {
      if k > 0 {
        assert text[i..j][k] == text[i + 1..j][k - 1];
      }
    }
  }

  // ---------------------------------------------------------------------------
  // Strings

  /**
   * The `ESCAPES` table; any other escaped character stands for itself. Only
   * the five letters `n f r t v` change, each into a distinct control character.
   */
  function EscapeReplacement(c: char): (r: char)
    ensures r != c <==> c in "nfrtv"
    ensures c in "nfrtv" ==> r as int < 0x20
    ensures c in "nrtv" ==> IsWhitespace(r)
  {
    match c
    case 'n' => '\n'
    case 'f' => '\U{000C}'
    case 'r' => '\r'
    case 't' => '\t'
    case 'v' => '\U{000B}'
    case '\'' => '\''
    case '"' => '"'
    case _ => c
  }

  /**
   * `String.fromCharCode` of a UTF-16 code unit. A lone surrogate is not a
   * character of this model and reads as the replacement character U+FFFD.
   */
  function FromCharCode(n: nat): (c: char)
    requires n < 0x1_0000
    ensures !(0xD800 <= n <= 0xDFFF) ==> c as int == n
  {
    if 0xD800 <= n <= 0xDFFF then '\U{FFFD}' else n as char
  }

  /** `text.substring(from, to)`: both ends are clamped to the text. */
  function Substring(text: string, from: nat, to: nat): (r: string)
    requires from <= to
    ensures |r| <= to - from
    ensures from + |r| <= |text| || |r| == 0
    ensures to <= |text| ==> r == text[from..to]
  {
    if |text| <= from then [] else if |text| <= to then text[from..] else text[from..to]
  }

  /** The `\u` rule: the four characters after the `u` must all be hexadecimal digits. */
  predicate IsHex4(s: string) {
    |s| == 4 && forall i :: 0 <= i < 4 ==> IsHexDigit(s[i])
  }

  datatype StringScan = Closed(token: Token, next: nat) | Unterminated

  /**
   * The character after a backslash: `u` and four hexadecimal digits name a
   * code unit, any other character goes through the escape table. The four
   * digits are skipped without reaching the raw text.
   */
  function DecodeEscape(text: string, i: nat): (r: Result<(char, nat), LexError>)
    requires i < |text|
    ensures r.Ok? ==> i < r.value.1 <= |text|
    ensures r.Err? <==> text[i] == 'u' && !IsHex4(Substring(text, i + 1, i + 5))
    ensures r.Err? ==> r.error == InvalidUnicodeEscape
    ensures text[i] != 'u' ==> r == Ok((EscapeReplacement(text[i]), i + 1))
  {
    if text[i] == 'u' then
      var hex := Substring(text, i + 1, i + 5);
      if !IsHex4(hex) then Err(InvalidUnicodeEscape)
      else
        assert HexValue(hex) < 0x1_0000 by { Hex4Bound(hex); }
        Ok((FromCharCode(HexValue(hex)), i + 5))
    else
      Ok((EscapeReplacement(text[i]), i + 1))
  }

  /**
   * `readString` from position `i` inside a literal opened by `delim`, having
   * decoded `str` and seen the raw characters `raw` so far, `escape` telling
   * whether the previous character was a backslash. A literal that reaches the
   * end of the text without its closing delimiter yields `Unterminated`: no
   * token and no error.
   */
  function ReadString(text: string, i: nat, delim: char, str: string, raw: string, escape: bool): (r: Result<StringScan, LexError>)
    requires i <= |text|
    requires |raw| > 0 && raw[0] == delim
    ensures r.Ok? && r.value.Closed? ==> i < r.value.next <= |text| && text[r.value.next - 1] == delim
    ensures r.Ok? && r.value.Closed? ==> !r.value.token.identifier && r.value.token.value.StringValue?
    ensures r.Ok? && r.value.Closed? ==>
      |r.value.token.text| >= 2 && r.value.token.text[0] == delim && r.value.token.text[|r.value.token.text| - 1] == delim
    ensures r.Err? ==> r.error == InvalidUnicodeEscape
    decreases |text| - i
  {
    if i == |text| then Ok(Unterminated)
    else
      var ch := text[i];
      var raw' := raw + [ch];
      if escape then
        match DecodeEscape(text, i)
        case Err(e) => Err(e)
        case Ok((c, next)) => ReadString(text, next, delim, str + [c], raw', false)
      else if ch == delim then
        Ok(Closed(Token(raw', StringValue(str), false), i + 1))
      else if ch == '\\' then
        ReadString(text, i + 1, delim, str, raw', true)
      else
        ReadString(text, i + 1, delim, str + [ch], raw', false)
  }

  lemma Hex4Bound(hex: string)
    requires IsHex4(hex)
    ensures HexValue(hex) < 0x1_0000
  {
    HexValueBound(hex);
  }

  // ---------------------------------------------------------------------------
  // Identifiers and operators

  /** `readIdent`: the end of the maximal run of identifier characters from `i`. */
  function IdentEnd(text: string, i: nat): (j: nat)
    requires i <= |text|
    ensures i <= j <= |text|
    ensures forall k :: i <= k < j ==> IsIdentPart(text[k])
    ensures j == |text| || !IsIdentPart(text[j])
    decreases |text| - i
  {
    if i < |text| && IsIdentPart(text[i]) then IdentEnd(text, i + 1) else i
  }

  /** Whether the `k` characters from `i` spell an operator. */
  predicate OperatorOfLength(text: string, i: nat, k: nat) {
    i + k <= |text| && text[i..i + k] in Operators
  }

  /**
   * The operator starting at `i`, longest first: three characters, then two,
   * then one. `None` when no operator starts there.
   */
  function OperatorAt(text: string, i: nat): (r: Option<string>)
    requires i < |text|
    ensures r.Some? ==> 1 <= |r.value| <= 3 && OperatorOfLength(text, i, |r.value|) && r.value == text[i..i + |r.value|]
    ensures r.Some? ==> forall k :: |r.value| < k <= 3 ==> !OperatorOfLength(text, i, k)
    ensures r.None? <==> forall k :: 1 <= k <= 3 ==> !OperatorOfLength(text, i, k)
  {
    OperatorLengths();
    if OperatorOfLength(text, i, 3) then Some(text[i..i + 3])
    else if OperatorOfLength(text, i, 2) then Some(text[i..i + 2])
    else if OperatorOfLength(text, i, 1) then Some(text[i..i + 1])
    else None
  }

  // ---------------------------------------------------------------------------
  // Tokens

  predicate IsIdentifierText(s: string) {
    |s| > 0 && IsIdentStart(s[0]) && forall k :: 0 <= k < |s| ==> IsIdentPart(s[k])
  }

  /** The shapes of token the lexer produces. */
  predicate WellFormed(t: Token) {
    || (t.identifier && t.value == NoValue && IsIdentifierText(t.text))
    || (!t.identifier && t.value == NumberText(t.text) && |t.text| > 0
        && forall k :: 0 <= k < |t.text| ==> IsNumberChar(t.text[k]))
    || (!t.identifier && t.value.StringValue? && |t.text| >= 2 && IsQuote(t.text[0])
        && t.text[|t.text| - 1] == t.text[0])
    || (!t.identifier && t.value == NoValue && |t.text| == 1 && IsPunctuation(t.text[0]))
    || (!t.identifier && t.value == NoValue && t.text in Operators)
  }

  /** A token whose text holds at least one digit. */
  predicate HasDigit(t: Token) {
    exists k :: 0 <= k < |t.text| && IsDigit(t.text[k])
  }

  /** Whether the character at `i` starts a number. */
  predicate StartsNumber(mode: Mode, text: string, i: nat)
    requires i < |text|
  {
    IsDigit(text[i]) || (text[i] == '.' && PeekIsDigit(mode, Peek(text, i, 1)))
  }

  /** Whether a character is handled by some branch before the operator table. */
  predicate HasOwnRule(mode: Mode, text: string, i: nat)
    requires i < |text|
  {
    StartsNumber(mode, text, i) || IsQuote(text[i]) || IsPunctuation(text[i])
    || IsIdentStart(text[i]) || IsWhitespace(text[i])
  }

  datatype Step = Step(token: Option<Token>, next: nat)

  /** The number branch of the `lex` loop. */
  function NumberStep(mode: Mode, text: string, i: nat): (r: Result<Step, LexError>)
    requires i < |text| && StartsNumber(mode, text, i)
    ensures r.Ok? ==> i < r.value.next <= |text| && r.value.token.Some?
    ensures r.Ok? ==> WellFormed(r.value.token.value) && r.value.token.value.value.NumberText?
    ensures r.Ok? ==> r.value.token.value.text == LowerAsciiString(text[i..r.value.next])
    ensures r.Ok? && mode == Corrected ==> HasDigit(r.value.token.value)
    ensures r.Err? ==> r.error == InvalidExponent
  {
    var scan :- ReadNumber(mode, text, i, "");
    var number := scan.0;
    assert number[0] == LowerAscii(text[i]);
    assert scan.1 > i;
    var token := Token(number, NumberText(number), false);
    assert mode == Corrected ==> HasDigit(token) by {
      if mode == Corrected {
        if IsDigit(text[i]) {
          assert IsDigit(number[0]);
        } else {
          assert scan.1 > i + 1;
          assert number[1] == LowerAscii(text[i + 1]);
          assert IsDigit(number[1]);
        }
      }
    }
    Ok(Step(Some(token), scan.1))
  }

  /** The string branch of the `lex` loop; an unterminated literal ends the text. */
  function StringStep(text: string, i: nat): (r: Result<Step, LexError>)
    requires i < |text| && IsQuote(text[i])
    ensures r.Ok? ==> i < r.value.next <= |text|
    ensures r.Ok? && r.value.token.Some? ==> WellFormed(r.value.token.value) && r.value.token.value.value.StringValue?
    ensures r.Ok? && r.value.token.None? ==> r.value.next == |text|
    ensures r.Err? ==> r.error == InvalidUnicodeEscape
  {
    var scan :- ReadString(text, i + 1, text[i], "", [text[i]], false);
    match scan
    case Closed(token, next) => Ok(Step(Some(token), next))
    case Unterminated => Ok(Step(None, |text|))
  }

  /** The operator branch of the `lex` loop: the longest operator, or an error. */
  function OperatorStep(text: string, i: nat): (r: Result<Step, LexError>)
    requires i < |text|
    ensures r.Ok? <==> exists k :: 1 <= k <= 3 && OperatorOfLength(text, i, k)
    ensures r.Ok? ==> i < r.value.next <= |text| && r.value.token.Some?
    ensures r.Ok? ==> r.value.token.value == Token(text[i..r.value.next], NoValue, false)
    ensures r.Ok? ==> OperatorOfLength(text, i, r.value.next - i)
    ensures r.Ok? ==> forall k :: r.value.next - i < k <= 3 ==> !OperatorOfLength(text, i, k)
    ensures r.Err? ==> r.error == UnexpectedCharacter(text[i])
  {
    match OperatorAt(text, i)
    case Some(op) => Ok(Step(Some(Token(op, NoValue, false)), i + |op|))
    case None => Err(UnexpectedCharacter(text[i]))
  }

  /**
   * One turn of the `lex` loop at position `i`: which token (if any) the
   * character there starts and where the next turn begins.
   */
  function LexStep(mode: Mode, text: string, i: nat): (r: Result<Step, LexError>)
    requires i < |text|
    ensures r.Ok? ==> i < r.value.next <= |text|
    ensures r.Ok? && r.value.token.Some? ==> WellFormed(r.value.token.value)
    ensures r.Ok? && r.value.token.Some? && mode == Corrected && r.value.token.value.value.NumberText? ==>
      HasDigit(r.value.token.value)
    // whitespace produces no token
    ensures IsWhitespace(text[i]) ==> r == Ok(Step(None, i + 1))
    // identifiers are maximal runs of identifier characters
    ensures IsIdentStart(text[i]) ==>
      r.Ok? && r.value.token == Some(Token(text[i..r.value.next], NoValue, true))
      && (r.value.next == |text| || !IsIdentPart(text[r.value.next]))
    // any other character must start an operator, and the longest one wins
    ensures !HasOwnRule(mode, text, i) ==> r == OperatorStep(text, i)
  {
    var ch := text[i];
    ClassesDisjoint(ch);
    if StartsNumber(mode, text, i) then NumberStep(mode, text, i)
    else if IsQuote(ch) then StringStep(text, i)
    else if IsPunctuation(ch) then Ok(Step(Some(Token([ch], NoValue, false)), i + 1))
    else if IsIdentStart(ch) then
      var j := IdentEnd(text, i);
      Ok(Step(Some(Token(text[i..j], NoValue, true)), j))
    else if IsWhitespace(ch) then Ok(Step(None, i + 1))
    else OperatorStep(text, i)
  }

  /** The `lex` loop from position `i` to the end of the text. */
  function LexFrom(mode: Mode, text: string, i: nat): (r: Result<seq<Token>, LexError>)
    requires i <= |text|
    ensures r.Ok? ==> forall k :: 0 <= k < |r.value| ==> WellFormed(r.value[k])
    ensures r.Ok? && mode == Corrected ==>
      forall k :: 0 <= k < |r.value| && r.value[k].value.NumberText? ==> HasDigit(r.value[k])
    decreases |text| - i
  {
    if i == |text| then Ok([])
    else
      var step :- LexStep(mode, text, i);
      var rest :- LexFrom(mode, text, step.next);
      match step.token
      case Some(t) =>
        TokensCons(mode, t, rest);
        Ok([t] + rest)
      case None => Ok(rest)
  }

  /** A well-formed token in front of well-formed tokens keeps them all well-formed, with a digit in every number under `Corrected`. */
  lemma TokensCons(mode: Mode, t: Token, rest: seq<Token>)
    requires WellFormed(t) && forall k :: 0 <= k < |rest| ==> WellFormed(rest[k])
    requires mode == Corrected && t.value.NumberText? ==> HasDigit(t)
    requires mode == Corrected ==> forall k :: 0 <= k < |rest| && rest[k].value.NumberText? ==> HasDigit(rest[k])
    ensures forall k :: 0 <= k < |[t] + rest| ==> WellFormed(([t] + rest)[k])
    ensures mode == Corrected ==>
      forall k :: 0 <= k < |[t] + rest| && ([t] + rest)[k].value.NumberText? ==> HasDigit(([t] + rest)[k])
  {
    assert forall k :: 0 < k < |[t] + rest| ==> ([t] + rest)[k] == rest[k - 1];
  }

  /** The lexer as written in the source. */
  function LexAsWritten(text: string): (r: Result<seq<Token>, LexError>)
    ensures r.Ok? ==> forall k :: 0 <= k < |r.value| ==> WellFormed(r.value[k])
  {
    LexFrom(AsWritten, text, 0)
  }

  /** The lexer with the end of the text read as no digit; the rest of the model uses this one. */
  function Lex(text: string): (r: Result<seq<Token>, LexError>)
    ensures r.Ok? ==> forall k :: 0 <= k < |r.value| ==> WellFormed(r.value[k])
    ensures r.Ok? ==> forall k :: 0 <= k < |r.value| && r.value[k].value.NumberText? ==> HasDigit(r.value[k])
  {
    LexFrom(Corrected, text, 0)
  }
}
