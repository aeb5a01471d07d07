/**
 * Character classes and operator table of the expression lexer
 * (src/parse.js, `OPERATORS`, `ESCAPES` and the `is*` predicates).
 */
module CharClass {

  /** A decimal digit: one of the ten characters `0`-`9`. */
  function IsDigit(c: char): (r: bool)
    ensures r <==> c in "0123456789"
  {
    '0' <= c <= '9'
  }

  /** A character that may start an identifier: `[A-Za-z_$]`. */
  function IsIdentStart(c: char): (r: bool)
    ensures r <==> 'a' <= LowerAscii(c) <= 'z' || c == '_' || c == '$'
    ensures r ==> !IsDigit(c)
  {
    ('a' <= c <= 'z') || ('A' <= c <= 'Z') || c == '_' || c == '$'
  }

  /** A character that may continue an identifier: `[A-Za-z0-9_$]`. */
  predicate IsIdentPart(c: char) {
    IsIdentStart(c) || IsDigit(c)
  }

  /** Space, carriage return, tab, line feed, vertical tab and no-break space. */
  function IsWhitespace(c: char): (r: bool)
    ensures r <==> c in " \r\t\n\U{000B}\U{00A0}"
    ensures r ==> !('!' <= c <= '~')
  {
    c == ' ' || c == '\r' || c == '\t' || c == '\n' || c == '\U{000B}' || c == '\U{00A0}'
  }

  predicate IsQuote(c: char) {
    c == '\'' || c == '"'
  }

  /** The single-character punctuation tokens `[ ] , { } : . ( ) ?`. */
  predicate IsPunctuation(c: char) {
    c in "[],{}:.()?"
  }

  /** A sign or a digit, the characters allowed right after an exponent marker. */
  function IsExpOperator(c: char): (r: bool)
    ensures r <==> c in "+-0123456789"
  {
    c == '-' || c == '+' || IsDigit(c)
  }

  /** Whitespace and identifier starts belong to no other class the lexer tests first. */
  lemma ClassesDisjoint(c: char)
    ensures IsWhitespace(c) ==> !IsDigit(c) && !IsQuote(c) && !IsPunctuation(c) && !IsIdentStart(c)
    ensures IsIdentStart(c) ==> !IsDigit(c) && !IsQuote(c) && !IsPunctuation(c) && c != '.'
  {
  }

  /** The operator table: every operator token the lexer can produce. */
  const Operators: set<string> :=
    {"+", "!", "-", "*", "/", "%", "=", "==", "!=", "===", "!==",
     "<", ">", "<=", ">=", "&&", "||"}

  lemma OperatorLengths()
    ensures forall op :: op in Operators ==> 1 <= |op| <= 3
  {
  }

  /** ASCII lower-casing; every other character is left as it is. */
  function LowerAscii(c: char): (r: char)
    ensures 'A' <= c <= 'Z' ==> r as int == c as int + 32
    ensures !('A' <= c <= 'Z') ==> r == c
    ensures !('A' <= r <= 'Z')
  {
    if 'A' <= c <= 'Z' then (c as int + 32) as char else c
  }

  function LowerAsciiString(s: string): (r: string)
    ensures |r| == |s|
    ensures forall i :: 0 <= i < |s| ==> r[i] == LowerAscii(s[i])
  {
    if s == [] then [] else [LowerAscii(s[0])] + LowerAsciiString(s[1..])
  }

  predicate IsHexDigit(c: char) {
    IsDigit(c) || ('a' <= c <= 'f') || ('A' <= c <= 'F')
  }

  /** The hexadecimal digits in order of value, as `toString(16)` writes them. */
  const HexDigits: string := "0123456789abcdef"

  /** The value of one hexadecimal digit, as `parseInt(…, 16)` reads it: either case. */
  function HexDigitValue(c: char): (r: nat)
    requires IsHexDigit(c)
    ensures r < 16
  {
    if IsDigit(c) then c as int - '0' as int
    else if 'a' <= c <= 'f' then c as int - 'a' as int + 10
    else c as int - 'A' as int + 10
  }

  /** The lower-case hexadecimal digit for `n` (what `Number.prototype.toString(16)` prints). */
  /** The digit `toString(16)` writes for a value below 16: lower case. */
  function HexDigit(n: nat): (c: char)
    requires n < 16
    ensures IsHexDigit(c) && HexDigitValue(c) == n
  {
    if n < 10 then ('0' as int + n) as char else ('a' as int + n - 10) as char
  }

  /** A hexadecimal digit of either case has the value of its lower-case form's position in the digit table. */
  lemma HexDigitValueInTable(c: char)
    requires IsHexDigit(c)
    ensures HexDigits[HexDigitValue(c)] == LowerAscii(c)
  {
  }

  /** The digit written for a value is the table's entry at that value. */
  lemma HexDigitInTable(n: nat)
    requires n < 16
    ensures HexDigit(n) == HexDigits[n]
  {
  }

  /** The value of a string of hexadecimal digits, most significant first (`parseInt(s, 16)`). */
  function HexValue(s: string): (r: nat)
    requires forall i :: 0 <= i < |s| ==> IsHexDigit(s[i])
  {
    if s == [] then 0 else HexValue(s[..|s| - 1]) * 16 + HexDigitValue(s[|s| - 1])
  }

  function Pow16(n: nat): (r: nat)
    ensures r > 0
  {
    if n == 0 then 1 else 16 * Pow16(n - 1)
  }

  /** A string of `n` hexadecimal digits denotes a value below `16^n`. */
  lemma {:induction false} HexValueBound(s: string)
    requires forall i :: 0 <= i < |s| ==> IsHexDigit(s[i])
    ensures HexValue(s) < Pow16(|s|)
  {
    if s != [] {
      HexValueBound(s[..|s| - 1]);
    }
  }
}
