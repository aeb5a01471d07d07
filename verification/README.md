# myangular expression core, scope digest and filters, in Dafny

This project models four parts of a small AngularJS re-implementation and
proves properties of the model.

- **Expression lexer and parser** (`src/parse.js`). The `Lexer` turns an
  expression text into tokens. The `AST` builder is a recursive-descent parser
  over those tokens: `program`, `assignment`, `ternary`, the six binary levels,
  `unary`, `primary`, and the array, object and argument lists. The compiler's
  helpers are modelled too: `ensureSafeMemberName` and the name checks
  `recurse` makes, `escape` with `stringEscapeFn`, and `ifDefined`.
  - Modules: `CharClass`, `Lexer`, `LexerProps`, `LexerScans`, `Parser`, `ParserSteps`,
    `ParserProps`, `ParserFacts`, `Compiler` and `EscapeRoundTrip`.
  - Main results:
    - printing any well-formed tree and parsing the tokens gives the tree back
      (`ParserProps.RenderThenParse`);
    - lexing the output of `escape` gives back the escaped string, for
      strings of the basic plane (`EscapeRoundTrip.EscapeThenLex`);
    - on every text, "Invalid exponent" is thrown exactly at a sign after `e`
      with no digit after it. A string literal throws "Invalid unicode
      escape" exactly when a bad `\u` comes before its first unescaped
      quote; otherwise it closes at that quote or, without one, is dropped
      silently (`LexerScans.InvalidExponentIffDanglingSign`,
      `LexerScans.StringStepScan`);
    - the compile-time name checks fail exactly when some name they check
      is forbidden (`Compiler.CheckNamesIffForbidden`).
- **Dirty-checking digest** (`src/scope.js`). A scope holds data and a list of
  watchers. Each watcher has a watch function (pure, data to value), a
  listener (new value, old value, data to data) and its last value, which
  starts at a sentinel.
  - `$$digestOnce` makes one pass in registration order. It stops early at the
    clean watcher that was dirty last.
  - `$digest` repeats passes until one is clean, and gives up after ten.
  - Modules: `Digest` (the operations), `DigestProps` (correctness of the
    short circuit, values given to listeners, the loop) and `DigestCosts`
    (evaluation counts and a pair of watchers that never settle).
- **The `filter` filter** (`src/filter_filter.js`).
  - `deepCompare` matches a value against an expected value over a JSON-like
    value type (`JsValues`):
    - a leading `!` negates;
    - an array matches if some item matches;
    - an object matches another object property by property, and any other
      value by some property value;
    - anything else goes to the comparator, a case-insensitive substring test
      with its own rules for `null` and `undefined`.
  - Modules: `FilterFilter` (the operations) and `FilterProps` (the same
    rules stated without recursion, and selection as an order-preserving
    sub-list).
- **The filter registry** (`src/filter.js`). `register` stores what a factory
  returns, given one name or an object of name/factory pairs. `filter(name)`
  looks it up; the registry is a plain object, so an unregistered name such as
  `toString` finds the inherited `Object.prototype` member. Module:
  `FilterRegistry`.

### Modelling choices

- **The lexer has two readings.** In the source, `peek()` returns `false` past
  the end of the text, and `isDigit(false)` holds. `Lexer.Mode` therefore has
  `AsWritten`, which keeps this, and `Corrected`, which reads the end as no
  character. `Lexer.Lex` uses the corrected reading; see Findings.
- **Errors are values.** Every thrown error is a `Result` error or an outcome
  constructor. `$digest`'s "10 digest iterations reached!" is
  `TooManyIterations`.
- **Watchers, positions and counts.** Watchers are never removed, so a
  position in the list names a watcher. That is how `$$lastDirtyWatch` is
  modelled. A pass also counts how many watch functions it ran. The tests
  count exactly this with side effects.
- **Filter expressions.** A function filter expression is a Dafny predicate
  on values. Any other expression is a value.

## Model

| member | source | states |
|---|---|---|
| CharClass.OperatorLengths | src/parse.js:50-68 | every entry of the operator table is one to three characters long, so the three-two-one look-ahead of `lex` sees all of them |
| CharClass.IsDigit | src/parse.js:117-119 | a digit is exactly one of the ten characters `0` to `9` |
| CharClass.IsExpOperator | src/parse.js:120-122 | exactly `+`, `-` or one of the ten digits |
| CharClass.IsIdentStart | src/parse.js:123-126 | exactly a letter of either case (a character whose lower-case form is `a` to `z`), `_` or `$`. A digit never starts an identifier |
| CharClass.IsWhitespace | src/parse.js:127-130 | exactly one of space, `\r`, `\t`, `\n`, `\v` and U+00A0. None of them is a visible ASCII character |
| CharClass.LowerAscii | src/parse.js:138 | lower-casing maps `A`-`Z` to `a`-`z`, leaves every other character alone, and never yields an upper-case letter |
| CharClass.LowerAsciiString | src/filter_filter.js:56-57 | `toLowerCase` keeps the length and lower-cases each character in place: A to Z become a to z, and every other character stays |
| CharClass.HexDigitValue | src/parse.js:181 | `parseInt(…, 16)` reads one hexadecimal digit as a value below 16. Which value is `CharClass.HexDigitValueInTable` |
| CharClass.HexDigit | src/parse.js:729 | `toString(16)` writes a value below 16 as a hexadecimal digit that reads back as the value |
| CharClass.HexDigitValueInTable | src/parse.js:181 | a digit of either case reads as the position of its lower-case form in `0123456789abcdef` |
| CharClass.HexDigitInTable | src/parse.js:729 | the digit written for a value below 16 is the lower-case one at that position of `0123456789abcdef` |
| CharClass.HexValueBound | src/parse.js:176-181 | `n` hexadecimal digits denote a value below `16^n`, so the four digits of a `\u` escape name a 16-bit code unit |
| JsValues.Get | src/filter_filter.js:35 | `actual[key]` is the value of an entry with that key, or `undefined` when no entry has it |
| JsValues.NatToString | src/filter_filter.js:30 | the decimal digits of `n`, with no leading zero, read back as `n` |
| JsValues.IntToString | src/filter_filter.js:56-57 | `String(n)` of an integer is its decimal digits, after a `-` when it is negative, and the digits read back as its magnitude |
| JsValues.ToStr | src/filter_filter.js:56-57 | `String(v)` of a string is the string itself. Of an integer it is the decimal digits that read back as it, with `-` for a negative one. An empty array, or an array whose single element is `null` or `undefined`, gives the empty string |
| Lexer.Peek | src/parse.js:227-232 | for `n >= 1`, there is a character exactly when `index + n` is inside the text, and it is the character there. `peek(0)` is `peek(1)`, because `n || 1` turns 0 into 1 |
| Lexer.EscapeReplacement | src/parse.js:48-49 | the escape table changes exactly `n`, `f`, `r`, `t` and `v`, each into a control character. `\n`, `\r`, `\t` and `\v` become whitespace, and every other character stands for itself |
| Lexer.ReadNumber | src/parse.js:135-163 | the number text is the lower-cased slice it consumed. It stops only at the end of the text or at a character that is neither `.` nor a digit. It holds only digits, `.`, `e`, `+` and `-`. Its only error is "Invalid exponent" |
| Lexer.FromCharCode | src/parse.js:181 | a code unit outside the surrogate range becomes the character with that code |
| Lexer.Substring | src/parse.js:176 | `substring` gives at most `to - from` characters, all from inside the text, and is the plain slice when `to` is inside the text |
| Lexer.DecodeEscape | src/parse.js:174-190 | the character after a backslash fails exactly when it is `u` not followed by four hexadecimal digits, and then with "Invalid unicode escape". Any other character is replaced through the escape table and consumes just itself |
| Lexer.ReadString | src/parse.js:165-205 | a closed literal ends right after its delimiter. It gives a non-identifier token with a string value whose text starts and ends with the delimiter. The only error is "Invalid unicode escape" |
| Lexer.IdentEnd | src/parse.js:208-225 | an identifier is the maximal run of letters, digits, `_` and `$`: every character up to the end belongs to it and the next one does not |
| Lexer.OperatorAt | src/parse.js:96-107 | the operator found is the longest one (three, then two, then one characters) spelled at the position. There is none exactly when no operator of any length starts there |
| Lexer.NumberStep | src/parse.js:82-84 | the number branch consumes at least one character and yields a well-formed number token whose text is the lower-cased input it covers. Under the corrected reading that text holds a digit. Its only error is "Invalid exponent" |
| Lexer.StringStep | src/parse.js:85-86 | the string branch consumes at least one character. A token it yields is a well-formed string token. When it yields none it has reached the end of the text. Its only error is "Invalid unicode escape" |
| Lexer.OperatorStep | src/parse.js:96-110 | succeeds exactly when some operator starts at the position. It emits the longest one and advances by its length, and otherwise throws "Unexpected next character" with that character |
| Lexer.LexStep | src/parse.js:79-111 | whitespace yields no token and advances one character. An identifier start yields an identifier token over the maximal run. Any character without a rule of its own goes to the operator branch. Every token is well formed |
| Lexer.LexFrom | src/parse.js:79-114 | every token produced is well formed, and under the corrected reading every number token holds a digit |
| Lexer.LexAsWritten | src/parse.js:73-115 | `lex` as written produces only well-formed tokens |
| Lexer.Lex | src/parse.js:73-115 | the corrected lexer produces only well-formed tokens, and every number token holds a digit |
| LexerProps.ReadNumberPadded | src/parse.js:135-163 | a trailing space does not change what `readNumber` reads |
| LexerProps.ReadStringPadded | src/parse.js:165-205 | a trailing space does not change how a literal closes or fails |
| LexerProps.IdentEndPadded | src/parse.js:208-225 | a trailing space does not change where an identifier ends |
| LexerProps.OperatorAtPadded | src/parse.js:96-107 | a trailing space does not change which operator is found |
| LexerProps.LexStepPadded | src/parse.js:79-111 | one turn of the loop is the same with a trailing space, except that an unterminated literal also swallows the space |
| LexerProps.LexFromPadded | src/parse.js:79-114 | the corrected loop gives the same tokens or error with a trailing space |
| LexerProps.TrailingSpaceInvariant | src/parse.js:73-115 | the corrected `lex` of `text + " "` equals that of `text` |
| LexerProps.ReadExponentAtEnd | src/parse.js:142-145 | as written, `readNumber` on `1e` keeps the `e` because `isExpOperator(false)` holds. Corrected, it stops before the `e` |
| LexerProps.ReadExponentBeforeSpace | src/parse.js:142-153 | with a space after it, `1e ` reads the number `1` under both readings |
| LexerProps.ExponentAtEndAsWritten | src/parse.js:117-122 | as written, `1e` lexes as one number token `1e`, while `1e ` lexes as `1` and the identifier `e` |
| LexerProps.ExponentAtEndCorrected | src/parse.js:117-122 | the corrected lexer reads `1e` as the number `1` and the identifier `e` |
| LexerProps.TrailingDotAsWritten | src/parse.js:82-84 | as written, a lone `.` lexes as a number token without any digit |
| LexerProps.TrailingDotCorrected | src/parse.js:82-91 | the corrected lexer reads a lone `.` as the punctuation token |
| LexerProps.UnterminatedStringIsDropped | src/parse.js:171-205 | `'ab` with no closing quote lexes to no tokens and no error |
| LexerProps.SimpleEscapeLexes | src/parse.js:182-189 | `'\c'` with any `c` other than `u` is one string token. Its value is what the escape table (`\n`, `\f`, `\r`, `\t`, `\v`, quotes) makes of `c`, or `c` itself |
| LexerProps.UnicodeEscapeLexes | src/parse.js:173-181 | `'\uXXXX'` with four hexadecimal digits is one string token holding the character they name. The token's text is `'\u'`, because the four digits never reach `rawString` |
| LexerProps.BadUnicodeEscapeRejected | src/parse.js:175-179 | `\u` followed by fewer than four characters, or by four that are not all hexadecimal digits, throws "Invalid unicode escape" |
| LexerProps.LongestOperator | src/parse.js:104-107 | in `a===b`, `===` is one token, and the index advances by three |
| LexerProps.DanglingExponentSign | src/parse.js:149-151 | `1e+` throws "Invalid exponent" under both readings |
| LexerProps.UnexpectedCharacterRejected | src/parse.js:108-110 | `a&b` throws "Unexpected next character" at `&`, which starts no operator |
| LexerScans.CollectedAt | src/parse.js:138-148 | what `readNumber` has collected on reaching a position is one character longer per character it passed |
| LexerScans.ExponentSignStep | src/parse.js:146-151 | at a `+` or `-` right after `e`, `readNumber` throws "Invalid exponent" when no digit follows. Otherwise it takes the sign and reads on |
| LexerScans.NumberAgreesEarlier | src/parse.js:137-157 | a position that is no dangling sign can be passed: what holds of the rest of the scan holds from that position |
| LexerScans.InvalidExponentIffDanglingSign | src/parse.js:135-163 | from any position, `readNumber` fails only at a dangling sign it reaches: a `+` or `-` after `e` with no digit after it. A number it reads has no dangling sign up to and including where it stops |
| LexerScans.NoDanglingSignReads | src/parse.js:146-151 | without a dangling sign in the rest of the text, `readNumber` does not throw |
| LexerScans.NumberStepFailsAtDanglingSign | src/parse.js:82-84 | the number branch throws only when there is a dangling sign ahead, and never when there is none |
| LexerScans.ScanAgreesEarlier | src/parse.js:171-205 | what the scan of a literal's body shows from a later position still holds from an earlier one when nothing between closes the literal or is a bad `\u` |
| LexerScans.EscapedRun | src/parse.js:174-191 | after a decoded escape the next character is unescaped again, and nothing the escape covers closes the literal or is a bad `\u` |
| LexerScans.EscapeIsNotBad | src/parse.js:174-191 | no character a decoded escape covers is an escaped `u` without four hexadecimal digits |
| LexerScans.HexDigitsInert | src/parse.js:175-181 | the four hexadecimal digits after `\u` neither close the literal nor count as a bad `\u` |
| LexerScans.ScanEscapedStep | src/parse.js:174-191 | a decoded escape hands the scan on to the character after it |
| LexerScans.ScanBadEscape | src/parse.js:175-179 | an escaped `u` without four hexadecimal digits ends the scan with "Invalid unicode escape" at that position |
| LexerScans.ReadStringScan | src/parse.js:165-205 | on every text, a closed literal ends at the first unescaped delimiter, an unterminated one has none, and a failure is a bad `\u` before any closing delimiter. Neither a closed nor an unterminated literal holds a bad `\u`. A character is escaped when an odd run of backslashes precedes it |
| LexerScans.StringStepScan | src/parse.js:85-86 | on every text, the string branch throws exactly when a bad `\u` comes before the first unescaped closing quote. Without that error it yields a token exactly when such a quote follows, ending at the first one. With neither, it yields no token and no error and ends the text |
| LexerScans.SliceCons | src/parse.js:173 | appending one character and then the rest of a slice appends the whole slice |
| LexerScans.ReadPlainBody | src/parse.js:192-203 | a body with no backslash and no delimiter before the delimiter is copied as it is into both the value and the token text |
| LexerScans.PlainStringStep | src/parse.js:85-86 | a literal with no backslash closes at its first delimiter. Its token text runs from quote to quote and its value is the text between them |
| Compiler.IndexOf | src/parse.js:9 | `indexOf` is -1 exactly when the name is absent, and otherwise its first position |
| Compiler.CheckNames | src/parse.js:556-712 | a failure is always the disallowed-field error. Literals and `this` pass. An `Identifier` fails exactly when its name is one of the six forbidden names |
| Compiler.CheckAll | src/parse.js:563-568 | a list of nodes fails exactly when one of them fails |
| Compiler.CheckPropertyValues | src/parse.js:569-577 | an object literal whose values are all constants passes, whatever its keys |
| Compiler.EnsureSafeMemberName | src/parse.js:6-12 | throws exactly when the name is one of the six forbidden names, with the disallowed-field error |
| Compiler.CheckNamesIffForbidden | src/parse.js:556-712 | the compile-time name checks on a tree fail exactly when some `Identifier` name or dotted member name in it is forbidden. Object-literal keys are not checked |
| Compiler.CheckAllIffForbidden | src/parse.js:563-568 | a list of nodes fails its checks exactly when some node has a forbidden checked name |
| Compiler.CheckPropertyValuesIffForbidden | src/parse.js:569-577 | an object literal's values fail exactly when one has a forbidden checked name. The keys play no part |
| Compiler.ToHex | src/parse.js:729 | `toString(16)` gives hexadecimal digits whose value is the number |
| Compiler.SliceLast4 | src/parse.js:729 | `slice(-4)` of a string of four or more characters is its last four |
| Compiler.LastFourDigits | src/parse.js:729 | the last four digits of `'0000' + n.toString(16)` denote `n` modulo `16^4` |
| Compiler.CodeUnits | src/parse.js:726-730 | a character is one UTF-16 code unit below U+10000 and otherwise a high surrogate followed by a low one, which together encode it |
| Compiler.StringEscapeFn | src/parse.js:727-730 | the replacement of one code unit is six characters: `\u` and four hexadecimal digits whose value is the code unit |
| Compiler.EscapeChar | src/parse.js:716-730 | a space, letter or digit stays. Any other character becomes one `\uXXXX` per code unit, so a character beyond U+FFFF becomes two escapes, one per surrogate |
| Compiler.EscapeBody | src/parse.js:716-718 | after replacement only space, letters, digits, backslashes and hexadecimal digits remain, so no quote |
| Compiler.EscapeBodyAppend | src/parse.js:718 | the global replace works character by character: escaping a concatenation concatenates the escaped parts |
| Compiler.EscapeBodyOne | src/parse.js:718 | a one-character string escapes as that character does, to six characters per code unit when it is not plain |
| Compiler.SurrogatesOf1F600 | src/parse.js:729 | U+1F600 is the two code units 0xD83D and 0xDE00 that `charCodeAt` sees one at a time |
| Compiler.AstralEscape | src/parse.js:726-730 | U+1F600 escapes to the escape of 0xD83D followed by that of 0xDE00, that is `\ud83d\ude00`: one escape per surrogate |
| Compiler.Escape | src/parse.js:715-725 | a string becomes a single-quoted literal with no quote inside, `null` becomes `null`, and any other value passes through |
| Compiler.IfDefined | src/parse.js:42-44 | the value, or the default exactly when the value is `undefined` |
| EscapeRoundTrip.DecodeStringEscape | src/parse.js:727-730 | the four digits `stringEscapeFn` writes are hexadecimal, and `fromCharCode(parseInt(…, 16))` gives the character back |
| EscapeRoundTrip.ReadEscapedBody | src/parse.js:165-205 | for `s` in the basic plane, `readString` over the escaped body of `s` and its closing quote decodes exactly `s` |
| EscapeRoundTrip.EscapedStringStep | src/parse.js:85-86 | for `s` in the basic plane, the escaped text of `s` is read in one step as a string token that spans the whole text and holds `s` |
| EscapeRoundTrip.EscapeThenLex | src/parse.js:715-730 | for `s` in the basic plane, lexing `escape(s)` gives one string token whose value is `s` |
| Parser.Consume | src/parse.js:501-507 | `consume(e)` succeeds exactly when the front token's text is `e` and removes just that token. Otherwise it throws "Unexpected token. Expecting: e" |
| Parser.ConsumeAny | src/parse.js:494-520 | `consume()` with no argument succeeds exactly when a token is left and removes just that token |
| Parser.ProgramOf | src/parse.js:266-268 | `program` builds a `Program` node |
| Parser.Assignment | src/parse.js:430-437 | a successful `assignment` consumes at least one token |
| Parser.Ternary | src/parse.js:413-428 | a successful `ternary` consumes at least one token |
| Parser.Operand | src/parse.js:329-411 | the operand of a binary level consumes at least one token |
| Parser.BinaryLevel | src/parse.js:329-411 | a successful binary level consumes at least one token |
| Parser.LevelTail | src/parse.js:329-411 | the operator loop of a level never lengthens the input |
| Parser.Unary | src/parse.js:316-327 | a successful `unary` consumes at least one token |
| Parser.Primary | src/parse.js:270-314 | a successful `primary` consumes at least one token |
| Parser.PrimaryTail | src/parse.js:286-312 | the member and call loop never lengthens the input |
| Parser.ArrayDeclaration | src/parse.js:447-460 | builds an array node and consumes at least one token |
| Parser.ArrayElements | src/parse.js:447-460 | the element loop never lengthens the input |
| Parser.ObjectDeclaration | src/parse.js:462-482 | builds an object node and consumes at least one token |
| Parser.PropertyList | src/parse.js:462-482 | the property loop consumes at least one token |
| Parser.ParseArguments | src/parse.js:484-492 | the argument list never lengthens the input |
| Parser.ArgumentList | src/parse.js:484-492 | a non-empty argument list consumes at least one token |
| Parser.ParseExpression | src/parse.js:261-264 | `ast(text)` builds a `Program` node |
| ParserProps.LevelOperatorsDisjoint | src/parse.js:329-411 | no operator belongs to two binary levels |
| ParserProps.RenderThenParse | src/parse.js:266-493 | parsing the printed tokens of any well-formed tree gives back a program holding that tree |
| ParserProps.AssignmentRoundTrip | src/parse.js:430-437 | `assignment` reads back a printed tree followed by any tokens that cannot continue it, and leaves those tokens |
| ParserProps.TernaryRoundTrip | src/parse.js:413-428 | `ternary` reads back a printed tree at conditional level |
| ParserProps.BinaryRoundTrip | src/parse.js:329-411 | each binary level reads back a printed tree at its level |
| ParserProps.UnaryRoundTrip | src/parse.js:316-327 | `unary` reads back a printed tree at unary level |
| ParserProps.PrimaryRoundTrip | src/parse.js:270-314 | `primary` reads the printed tree and goes on with its member and call loop |
| ParserProps.ParenthesesRoundTrip | src/parse.js:272-274 | a parenthesised printed tree is read back as that tree |
| ParserProps.ArrayRoundTrip | src/parse.js:275-276 | a printed array literal is read back |
| ParserProps.ObjectLiteralRoundTrip | src/parse.js:277-278 | a printed object literal is read back |
| ParserProps.ComputedMemberRoundTrip | src/parse.js:289-296 | a printed computed member access is read back |
| ParserProps.DotMemberRoundTrip | src/parse.js:297-303 | a printed dotted member access is read back |
| ParserProps.CallRoundTrip | src/parse.js:304-311 | a printed call is read back |
| ParserProps.ElementsRoundTrip | src/parse.js:447-460 | the printed elements of an array, up to `]`, are read back |
| ParserProps.ArgumentsRoundTrip | src/parse.js:484-492 | the printed arguments of a call, up to `)`, are read back |
| ParserProps.ObjectRoundTrip | src/parse.js:462-482 | the printed properties of an object, followed by `}`, are read back as an object node |
| ParserProps.PropertyListRoundTrip | src/parse.js:462-482 | the printed `key: value` pairs are read back |
| ParserFacts.SameLevelGroupsLeft | src/parse.js:329-411 | `a op b op c` with both operators at one level groups as `(a op b) op c` |
| ParserFacts.TighterSecondGroupsRight | src/parse.js:329-411 | when the second operator binds tighter, `a op1 b op2 c` groups as `a op1 (b op2 c)` |
| ParserFacts.TighterFirstGroupsLeft | src/parse.js:329-411 | when the first operator binds tighter, it groups as `(a op1 b) op2 c` |
| ParserFacts.PrefixBindsTighter | src/parse.js:316-327 | a prefix operator binds tighter than any binary operator |
| ParserFacts.PrefixesNest | src/parse.js:316-327 | prefix operators nest to the right |
| ParserFacts.TrailingTokensIgnored | src/parse.js:266-268 | `program` ignores any tokens after a well-formed expression that cannot continue it |
| ParserFacts.ChainedAssignmentKeepsFirst | src/parse.js:430-437 | `a = b = c` parses as `a = b`. The right side of `=` is a ternary, so the second `=` and `c` are dropped |
| ParserFacts.TernaryNeedsAlternative | src/parse.js:413-428 | `a ? b` without `:` throws "Unexpected token. Expecting: :" |
| ParserFacts.ArrayTrailingCommaAccepted | src/parse.js:447-460 | `[a,]` is the one-element array |
| ParserFacts.ObjectTrailingCommaRejected | src/parse.js:462-482 | `{a: b,}` throws "Unexpected token. Expecting: :" |
| Digest.NewScope | src/scope.js:6-9 | a new scope has no watchers and no last dirty watch |
| Digest.IsDirty | src/scope.js:29 | a watcher that has seen no value yet is always dirty. Afterwards it is dirty exactly when the new value differs from the last one |
| Digest.Watch | src/scope.js:11-19 | `$watch` appends exactly one watcher, with the sentinel as its last value. Its listener is the given one, or one that leaves the data alone. Nothing else changes |
| Digest.OldValue | src/scope.js:34 | the old value given to a listener is the new value on its first call and the last value afterwards |
| Digest.Fire | src/scope.js:29-37 | a dirty watcher becomes the last dirty watch and stores the new value. Its listener runs on (new, old, data). No other watcher changes |
| Digest.DigestOnceFrom | src/scope.js:25-41 | the rest of a pass keeps every watch and listener function. It is dirty exactly when some listener ran. The listeners run in registration order, each at most once. It changes nothing when clean, and the last dirty watch is the last watcher fired |
| Digest.DigestOnce | src/scope.js:21-44 | `$$digestOnce` returns true exactly when at least one listener ran. It evaluates each watch function at most once, in order |
| Digest.DigestLoop | src/scope.js:51-58 | a loop that settles ends on a clean pass, within the passes it had left |
| Digest.DigestScope | src/scope.js:46-59 | a digest that returns normally took between one and ten passes |
| DigestProps.FullPassFrom | src/scope.js:25-37 | the reference pass without the short circuit: dirty exactly when a listener ran, unchanged when clean |
| DigestProps.FullPassOverClean | src/scope.js:25-37 | a full pass over clean watchers changes nothing and runs no listener |
| DigestProps.DigestOnceOverClean | src/scope.js:25-41 | a pass over clean watchers, none of them the last dirty watch, changes nothing |
| DigestProps.FullPassSettles | src/scope.js:25-37 | after a full pass every watcher after the last one fired is clean |
| DigestProps.ShortCircuitAgreesFrom | src/scope.js:38-39 | under the last-dirty invariant, stopping at the last dirty watch gives the same scope, dirty flag and calls as the full pass |
| DigestProps.ShortCircuitIsSound | src/scope.js:38-39 | under the invariant, a pass is dirty exactly when some watcher is not clean, agrees with the full pass, and restores the invariant |
| DigestProps.StaleLastDirtyMissesWatcher | src/scope.js:49 | without the reset of the last dirty watch, a pass can stop before a dirty watcher, which is why `$digest` clears it |
| DigestProps.VisitFiresIffChanged | src/scope.js:27-37 | on reaching a watcher, a pass runs its listener exactly when the watch value differs from the last value. The first call is then to that watcher with that new value |
| DigestProps.PassOldValues | src/scope.js:27-35 | each listener is given as old value its watcher's last value before the pass, or the new value if there was none |
| DigestProps.PassStoresNewValues | src/scope.js:32 | every watcher fired stores the new value it was called with |
| DigestProps.PassLeavesOthers | src/scope.js:25-41 | a watcher whose listener did not run keeps its last value |
| DigestProps.FirstFiringSeesNewAsOld | src/scope.js:33-35 | on a watcher's first firing its listener gets the new value as the old value |
| DigestProps.LoopSettlesClean | src/scope.js:51-58 | under the invariant, a loop that settles leaves every watcher clean |
| DigestProps.SettledDigestIsClean | src/scope.js:46-59 | after `$digest` returns normally, every watcher is clean |
| DigestProps.SecondDigestRunsNoListener | test/scope_spec.js:51-55 | with no change in between, a second `$digest` runs no listener and makes one clean pass |
| DigestProps.GivesUpIffEveryPassDirty | src/scope.js:51-58 | the loop throws exactly when every pass it has left is dirty |
| DigestProps.GivesUpAfterTenDirtyPasses | src/scope.js:46-58 | `$digest` throws exactly when its first ten passes are all dirty |
| DigestCosts.FreshPass | src/scope.js:25-37 | a pass over new watchers without listeners evaluates each once and leaves the data alone. It is dirty, ending on the last watcher, when there is any, and leaves them all clean |
| DigestCosts.PassStopsAtLastDirty | src/scope.js:38-39 | a pass over clean watchers stops at the last dirty watch after evaluating the watchers up to it |
| DigestCosts.FirstDigestEvaluatesTwice | test/scope_spec.js:148-163 | the first digest of `n` new watchers makes two passes and `2n` evaluations, 200 for 100 watchers |
| DigestCosts.OneChangeEvaluatesOnceMore | test/scope_spec.js:164-168 | when only the first watcher's value changed, a digest takes `n + 1` evaluations, 101 for 100 watchers |
| DigestCosts.CrossedPass | test/scope_spec.js:127-146 | with two watchers that bump each other's counter, every pass is dirty and leaves the same shape behind |
| DigestCosts.CrossedStaysDirty | test/scope_spec.js:127-146 | any number of passes over the crossed watchers are all dirty |
| DigestCosts.CrossedWatchersGiveUp | test/scope_spec.js:127-146 | `$digest` over the crossed watchers throws the ten-iterations error |
| FilterFilter.IndexFrom | src/filter_filter.js:58 | `indexOf` from a position gives the first occurrence at or after it, or -1 when there is none |
| FilterFilter.IndexOf | src/filter_filter.js:58 | `indexOf` is -1 exactly when the needle does not occur, and otherwise the first place it does |
| FilterFilter.Comparator | src/filter_filter.js:49-59 | `undefined` never matches. With `null` on either side it is strict equality. Otherwise the lower-cased `String(expected)` must occur in the lower-cased `String(actual)` |
| FilterFilter.DeepCompare | src/filter_filter.js:20-46 | unless the expected value is a negation: `undefined` matches nothing, `null` matches only `null`, an empty array matches nothing, and an object with no properties matches no scalar. Two strings match exactly when the lower-cased expected string occurs in the lower-cased actual one |
| FilterFilter.PlainEntries | src/filter_filter.js:30 | `_.toPlainObject(expected)` keeps an object's own entries as they are, and gives an array one entry per item |
| FilterFilter.PlainEntriesOfArray | src/filter_filter.js:30 | `_.toPlainObject` of an array gives one entry per item, in order, keyed by the item's index written in decimal |
| FilterFilter.IndexedEntries | src/filter_filter.js:30 | `toPlainObject` of an array keys each item by its index written in decimal |
| FilterFilter.Select | src/filter_filter.js:16 | `_.filter` returns no more items than it was given |
| FilterFilter.Filter | src/filter_filter.js:2-17 | an `undefined` expression returns the array unchanged, and any other expression selects |
| FilterProps.NegationFlips | src/filter_filter.js:21-22 | an expected string starting with `!` matches exactly when the rest does not, whatever the actual value |
| FilterProps.DoubleNegationCancels | src/filter_filter.js:21-22 | two leading `!` cancel |
| FilterProps.AnyItemMatchesIff | src/filter_filter.js:24-26 | the item loop is true exactly when some item matches |
| FilterProps.ArrayMatchesSomeItem | src/filter_filter.js:23-26 | an array matches exactly when one of its items matches |
| FilterProps.AnyValueMatchesIff | src/filter_filter.js:39-41 | the property loop is true exactly when some property value matches |
| FilterProps.ObjectMatchesSomeValue | src/filter_filter.js:38-41 | an object matches a non-object expected value exactly when one of its property values matches |
| FilterProps.EveryKeyMatchesIff | src/filter_filter.js:29-37 | the key loop is true exactly when every expected property is undefined or matches `actual[key]` |
| FilterProps.ObjectMatchesEveryProperty | src/filter_filter.js:27-37 | an object matches an expected object or array exactly when every expected property is undefined or matches the property of the same name. An array's properties are its items keyed by index |
| FilterProps.ScalarUsesComparator | src/filter_filter.js:43-45 | values that are neither arrays nor objects are judged by the comparator |
| FilterProps.LowerIsIdempotent | src/filter_filter.js:56-57 | lower-casing twice is lower-casing once |
| FilterProps.EmptyStringMatchesEveryScalar | src/filter_filter.js:56-58 | the empty string matches every defined, non-null value that is neither array nor object |
| FilterProps.ComparatorIgnoresCase | src/filter_filter.js:56-58 | upper or lower case in the expected string makes no difference |
| FilterProps.NullMatchesOnlyNull | src/filter_filter.js:53-55 | among values that are neither arrays nor objects, only `null` matches `null`. `null` matches no expected value other than `null` and negations |
| FilterProps.SelectKeepsExactlyMatching | src/filter_filter.js:16 | an item is in the result exactly when it is in the input and passes the predicate |
| FilterProps.SelectAppend | src/filter_filter.js:16 | filtering a concatenation concatenates the filtered parts |
| FilterProps.SelectOne | src/filter_filter.js:16 | a single item is kept exactly when it passes |
| FilterProps.SelectIsSubsequence | src/filter_filter.js:16 | the result is the input with some items left out, the rest in their order |
| FilterProps.SelectIsIdempotent | src/filter_filter.js:16 | filtering twice with the same expression is filtering once |
| FilterProps.SelectKeepsAllMatching | src/filter_filter.js:16 | when every item passes, the array comes back whole |
| FilterRegistry.RegisterOne | src/filter.js:8-12 | `register(name, factory)` returns `factory()` and stores it under the name. Every other name looks up as before |
| FilterRegistry.RegisterEach | src/filter.js:4-7 | the object form returns, in order, what each factory returned. A name not in the object looks up as before |
| FilterRegistry.Register | src/filter.js:3-13 | a name returns the filter created and stores it. An object returns the list of filters created, one per pair |
| FilterRegistry.LastPairWins | src/filter.js:4-11 | each pair's filter is stored under its name, unless a later pair reuses the name |
| FilterRegistry.Lookup | src/filter.js:15-17 | `filter(name)` finds the registered filter when there is one. Otherwise it finds the `Object.prototype` member of that name if there is one, and it is `undefined` exactly when neither exists |
| FilterRegistry.NeverRegisteredIsUndefined | src/filter.js:15-17 | starting from no filters, a name no pair registers is `undefined`, unless it names an inherited `Object.prototype` member, which is what it finds then |
| FilterRegistry.InheritedNameFound | src/filter.js:15-17 | `filter('toString')` on a registry without that name finds the inherited method, not `undefined` |

## Left out

- Code emission and evaluation: `compile`, the JavaScript text `recurse` builds, and the `new Function` that runs it are not modelled. Only the name checks `recurse` makes are.
- `ensureSafeObject` and `ensureSafeFunction` are not modelled. They test host objects by identity (`window`, `Function.prototype.call`, …), which have no counterpart among plain values.
- Number values: `Number(text)` is IEEE conversion. A number token keeps its text, and filter values hold integers only.
- `NaN`: strict `!==` keeps a `NaN` watch value dirty forever. The model compares values with Dafny equality and has no `NaN`.
- Digest.IsDirty: the source's `!==` compares objects and arrays by identity, and the model compares values structurally. In the source, a watch function that builds a new `[]` or `{}` on every call is dirty on every pass, so `$digest` throws after ten passes. In the model the same watcher settles after its first pass.
- Unicode: `toLowerCase` and `String(…)` are ASCII-only. Strings are sequences of Unicode scalar values; `escape` splits a character beyond U+FFFF into its two UTF-16 code units as the source does. Reading a `\u` escape that names a lone surrogate gives U+FFFD, because a lone surrogate is not a character here. So lexing a surrogate pair's two escapes gives two U+FFFD rather than the pair, and the `escape` round trip is proved only for characters of the basic plane.
- EscapeRoundTrip.EscapeThenLex, EscapeRoundTrip.EscapedStringStep, EscapeRoundTrip.ReadEscapedBody: each requires every character of `s` to lie in the basic plane, for the reason in the Unicode line above. A string holding a character beyond U+FFFF is escaped, but not read back to itself.
- Compiler.CheckNames, Compiler.CheckNamesIffForbidden: for a computed member `a[b]`, the compiler emits a call to `ensureSafeMemberName` on the value of `b`, which runs at evaluation time (src/parse.js:617). So `a['constructor']` throws when it is evaluated. Evaluation is not modelled, and these contracts cover only the names checked at compile time. Compilation also throws from `new Function` (src/parse.js:538) when a dotted name is not a JavaScript identifier: after `.` the parser takes any token (src/parse.js:297-303, 443-444), so `a.+` passes the name checks and then emits `(v1).+`, which is a syntax error. The generated text is not modelled, so that error is not either.
- A listener transforms the scope's data and cannot call `$watch` or `$digest`. A watch function or listener that throws is not modelled.
- A function filter expression is any Dafny predicate on values. `_.filter` over an object rather than an array is not modelled.
- JsValues.Get: `actual[key]` also finds members inherited from `Object.prototype` (`toString`, `constructor`, …), so in the source `deepCompare({}, {toString: {}})` compares against the inherited function and is true, while the model finds `undefined` and gives false. Property lookup through the prototype chain is not modelled for filter values.
- FilterRegistry.Lookup, FilterRegistry.RegisterOne: `filters['__proto__'] = filter` replaces the registry object's prototype instead of storing an entry. The model stores it as an ordinary entry.
- Lexer.ReadNumber, Lexer.NumberStep: their contracts name "Invalid exponent" as the only error but not when it is thrown. `LexerScans.InvalidExponentIffDanglingSign` and `LexerScans.ExponentSignStep` state that.
- Lexer.ReadString, Lexer.StringStep: their contracts state the shape of a closed literal and the only error, but not where the literal closes or what it holds. `LexerScans.ReadStringScan`, `LexerScans.StringStepScan` and `LexerScans.PlainStringStep` state that.
- `_.toPlainObject` copies inherited enumerable properties too. Objects here have only their own entries, in enumeration order.
- A factory is a pure thunk; its side effects, and the top-level `register('filter', filterFilter)` call, are not modelled.
- The lodash helpers (`_.each`, `_.some`, `_.every`, `_.filter`, `_.map`) are modelled by their plain meaning, not as library code.
- Gruntfile.js (build configuration) and test/loader_spec.js (a module loader not in this model) are outside the model.
- Parser.Assignment, Parser.Ternary, Parser.Operand, Parser.BinaryLevel, Parser.Unary, Parser.Primary, Parser.PropertyList, Parser.ArgumentList, Parser.ArrayDeclaration and Parser.ObjectDeclaration: each contract states only that a successful parse consumes at least one token, not that the rest is a suffix of the input. The round-trip lemmas in `ParserProps` pin down what they return.
- Parser.LevelTail, Parser.PrimaryTail, Parser.ArrayElements and Parser.ParseArguments: each contract states only that the input does not grow.
- FilterFilter.Select: its contract bounds the length only. Membership, order and concatenation are the `FilterProps.Select*` lemmas.
- FilterFilter.Comparator: `~actual.indexOf(expected)` is a 32-bit complement whose truth is `indexOf != -1`. The model states that truth and not the number.
- Parser.ProgramOf and Parser.ParseExpression: each contract states only that the result is a `Program` node. `ParserProps.RenderThenParse` states what it holds.
- Digest.DigestScope: it states the pass bound. That a normal return leaves every watcher clean is `DigestProps.SettledDigestIsClean`.

## Findings

| source | as written | input that shows it | evidently intended | confidence | as-written member | corrected member |
|---|---|---|---|---|---|---|
| src/parse.js:142-145 | `isExpOperator(this.peek())` is applied to `false` past the end of the text, and `isDigit(false)` holds: both comparisons turn `false` into 0, so they read `0 <= 0` and `0 <= 9` | `1e` lexes as one number token `1e` (value `NaN`), while `1e ` lexes as `1` and the identifier `e` | past the end there is no digit, so `1e` lexes like `1e ` | high; not executed | LexerProps.ExponentAtEndAsWritten | LexerProps.ExponentAtEndCorrected |
| src/parse.js:82-84 | `this.isDigit(this.peek())` holds at the end of the text, so a final `.` starts a number | `.` (or `a.`) ends in a number token `.` with no digit in it | a final `.` is the punctuation token | high; not executed | LexerProps.TrailingDotAsWritten | LexerProps.TrailingDotCorrected |

The corrected lexer (`Lexer.Lex`) is the one the rest of the model uses.
`LexerProps.TrailingSpaceInvariant` proves the property both rows break: under
the corrected reading, a trailing space never changes the tokens.
