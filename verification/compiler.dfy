/**
 * The parts of the AST compiler (`ASTCompiler` in src/parse.js) that decide
 * something without emitting code: the forbidden-member-name check and where
 * compilation applies it, literal escaping, and the `ifDefined` helper the
 * generated code calls.
 */
module Compiler {
  import opened Wrappers
  import opened CharClass
  import opened JsValues
  import opened Parser

  // ---------------------------------------------------------------------------
  // ensureSafeMemberName

  datatype SecurityError = DisallowedField

  const ForbiddenMemberNames: seq<string> :=
    ["constructor", "__proto__", "__defineGetter__", "__defineSetter__", "__lookupGetter__", "__lookupSetter__"]

  /** `list.indexOf(name)`: the first position holding `name`, or -1. */
  function IndexOf(list: seq<string>, name: string): (r: int)
    ensures -1 <= r < |list|
    ensures r == -1 <==> name !in list
    ensures r >= 0 ==> list[r] == name && forall j :: 0 <= j < r ==> list[j] != name
  {
    if list == [] then -1
    else if list[0] == name then 0
    else
      var r := IndexOf(list[1..], name);
      if r == -1 then -1 else r + 1
  }

  /** The bitwise complement `~i` of a 32-bit integer. */
  function BitwiseNot(i: int): int {
    -i - 1
  }

  /** `ensureSafeMemberName`: throws when the name is one of the six forbidden ones. */
  function EnsureSafeMemberName(name: string): (r: Outcome<SecurityError>)
    ensures r.Fail? <==> name in ForbiddenMemberNames
    ensures r.Fail? ==> r.error == DisallowedField
  {
    if BitwiseNot(IndexOf(ForbiddenMemberNames, name)) != 0 then Fail(DisallowedField) else Pass
  }

  // ---------------------------------------------------------------------------
  // The name checks of `recurse`

  /** The first failure of two checks made one after the other. */
  function AndThen(first: Outcome<SecurityError>, second: Outcome<SecurityError>): Outcome<SecurityError> {
    if first.Fail? then first else second
  }

  /**
   * The compile-time name checks `recurse` makes while walking the tree, in
   * its order: every `Identifier` it visits and every dotted member name.
   * Object-literal keys are read, not visited, so they are not checked; the
   * key of a computed member is visited as an ordinary node.
   */
  function CheckNames(n: Node): (r: Outcome<SecurityError>)
    ensures r.Fail? ==> r.error == DisallowedField
    ensures n.Literal? || n.ThisExpression? ==> r == Pass
    ensures n.Identifier? ==> (r.Fail? <==> n.name in ForbiddenMemberNames)
    decreases n
  {
    match n
    case Program(body) => CheckNames(body)
    case Literal(_) => Pass
    case ArrayExpression(elements) => CheckAll(elements)
    case ObjectExpression(properties) => CheckPropertyValues(properties)
    case Identifier(name) => EnsureSafeMemberName(name)
    case ThisExpression => Pass
    case MemberExpression(target, property, computed) =>
      AndThen(CheckNames(target),
              if computed then CheckNames(property)
              else if property.Identifier? then EnsureSafeMemberName(property.name)
              else Pass)
    case CallExpression(callee, arguments) => AndThen(CheckNames(callee), CheckAll(arguments))
    case AssignmentExpression(left, right) => AndThen(CheckNames(left), CheckNames(right))
    case UnaryExpression(_, argument) => CheckNames(argument)
    case BinaryExpression(left, _, right) => AndThen(CheckNames(left), CheckNames(right))
    case LogicalExpression(left, _, right) => AndThen(CheckNames(left), CheckNames(right))
    case ConditionalExpression(test, consequent, alternate) =>
      AndThen(CheckNames(test), AndThen(CheckNames(consequent), CheckNames(alternate)))
  }

  function CheckAll(nodes: seq<Node>): (r: Outcome<SecurityError>)
    ensures r.Fail? <==> exists k :: 0 <= k < |nodes| && CheckNames(nodes[k]).Fail?
    decreases nodes
  {
    if nodes == [] then Pass else AndThen(CheckNames(nodes[0]), CheckAll(nodes[1..]))
  }

  function CheckPropertyValues(properties: seq<Property>): (r: Outcome<SecurityError>)
    ensures r.Fail? ==> r.error == DisallowedField
    ensures (forall k :: 0 <= k < |properties| ==> properties[k].value.Literal?) ==> r == Pass
    decreases properties
  {
    if properties == [] then Pass
    else
      var p := properties[0];
      assert p in properties && p.value < p;
      AndThen(CheckNames(p.value), CheckPropertyValues(properties[1..]))
  }

  /** The set of names compilation hands to `ensureSafeMemberName` for a tree. */
  ghost function CheckedNames(n: Node): set<string>
    decreases n
  {
    match n
    case Program(body) => CheckedNames(body)
    case Literal(_) => {}
    case ArrayExpression(elements) => set i, name | 0 <= i < |elements| && name in CheckedNames(elements[i]) :: name
    case ObjectExpression(properties) =>
      set i, name | 0 <= i < |properties| && name in CheckedNames(properties[i].value) :: name
    case Identifier(name) => {name}
    case ThisExpression => {}
    case MemberExpression(target, property, computed) =>
      CheckedNames(target) + (if computed then CheckedNames(property)
                              else if property.Identifier? then {property.name} else {})
    case CallExpression(callee, arguments) =>
      CheckedNames(callee) + set i, name | 0 <= i < |arguments| && name in CheckedNames(arguments[i]) :: name
    case AssignmentExpression(left, right) => CheckedNames(left) + CheckedNames(right)
    case UnaryExpression(_, argument) => CheckedNames(argument)
    case BinaryExpression(left, _, right) => CheckedNames(left) + CheckedNames(right)
    case LogicalExpression(left, _, right) => CheckedNames(left) + CheckedNames(right)
    case ConditionalExpression(test, consequent, alternate) =>
      CheckedNames(test) + CheckedNames(consequent) + CheckedNames(alternate)
  }

  ghost predicate IsForbidden(name: string) {
    name in ForbiddenMemberNames
  }

  /** Some name in the set is forbidden. */
  ghost predicate ForbiddenIn(names: set<string>) {
    exists name :: name in names && IsForbidden(name)
  }

  lemma UnionForbidden(a: set<string>, b: set<string>)
    ensures ForbiddenIn(a + b) <==> ForbiddenIn(a) || ForbiddenIn(b)
  {
    if ForbiddenIn(a + b) {
      var name :| name in a + b && IsForbidden(name);
      assert name in a || name in b;
    }
  }

  /** The compile-time name checks fail exactly when some checked name is forbidden. */
  lemma {:induction false} CheckNamesIffForbidden(n: Node)
    ensures CheckNames(n).Fail? <==> ForbiddenIn(CheckedNames(n))
    decreases n
  {
    match n
    case Program(body) => CheckNamesIffForbidden(body);
    case Literal(_) =>
    case ArrayExpression(elements) => CheckAllIffForbidden(elements);
    case ObjectExpression(properties) => CheckPropertyValuesIffForbidden(properties);
    case Identifier(name) =>
      assert name in CheckedNames(n);
    case ThisExpression =>
    case MemberExpression(target, property, computed) =>
      CheckNamesIffForbidden(target);
      var own := if computed then CheckedNames(property) else if property.Identifier? then {property.name} else {};
      UnionForbidden(CheckedNames(target), own);
      if computed {
        CheckNamesIffForbidden(property);
      } else if property.Identifier? {
        assert property.name in own;
      }
    case CallExpression(callee, arguments) =>
      CheckNamesIffForbidden(callee);
      CheckAllIffForbidden(arguments);
      UnionForbidden(CheckedNames(callee), set i, name | 0 <= i < |arguments| && name in CheckedNames(arguments[i]) :: name);
    case AssignmentExpression(left, right) =>
      CheckNamesIffForbidden(left);
      CheckNamesIffForbidden(right);
      UnionForbidden(CheckedNames(left), CheckedNames(right));
    case UnaryExpression(_, argument) => CheckNamesIffForbidden(argument);
    case BinaryExpression(left, _, right) =>
      CheckNamesIffForbidden(left);
      CheckNamesIffForbidden(right);
      UnionForbidden(CheckedNames(left), CheckedNames(right));
    case LogicalExpression(left, _, right) =>
      CheckNamesIffForbidden(left);
      CheckNamesIffForbidden(right);
      UnionForbidden(CheckedNames(left), CheckedNames(right));
    case ConditionalExpression(test, consequent, alternate) =>
      CheckNamesIffForbidden(test);
      CheckNamesIffForbidden(consequent);
      CheckNamesIffForbidden(alternate);
      UnionForbidden(CheckedNames(test), CheckedNames(consequent));
      UnionForbidden(CheckedNames(test) + CheckedNames(consequent), CheckedNames(alternate));
  }

  lemma {:induction false} CheckAllIffForbidden(nodes: seq<Node>)
    ensures CheckAll(nodes).Fail? <==>
      exists i, name :: 0 <= i < |nodes| && name in CheckedNames(nodes[i]) && IsForbidden(name)
    decreases nodes
  {
    if nodes != [] {
      CheckNamesIffForbidden(nodes[0]);
      CheckAllIffForbidden(nodes[1..]);
      if CheckAll(nodes).Fail? {
        if CheckNames(nodes[0]).Fail? {
          var name :| name in CheckedNames(nodes[0]) && IsForbidden(name);
          assert 0 <= 0 < |nodes| && name in CheckedNames(nodes[0]);
        } else {
          var i, name :| 0 <= i < |nodes[1..]| && name in CheckedNames(nodes[1..][i]) && IsForbidden(name);
          assert name in CheckedNames(nodes[i + 1]);
        }
      } else {
        forall i, name | 0 <= i < |nodes| && name in CheckedNames(nodes[i])
          ensures !IsForbidden(name)
        {
          if i > 0 {
            assert nodes[i] == nodes[1..][i - 1];
          }
        }
      }
    }
  }

  lemma {:induction false} CheckPropertyValuesIffForbidden(properties: seq<Property>)
    ensures CheckPropertyValues(properties).Fail? <==>
      exists i, name :: 0 <= i < |properties| && name in CheckedNames(properties[i].value) && IsForbidden(name)
    decreases properties
  {
    if properties != [] {
      var p := properties[0];
      assert p in properties && p.value < p;
      CheckNamesIffForbidden(p.value);
      CheckPropertyValuesIffForbidden(properties[1..]);
      if CheckPropertyValues(properties).Fail? {
        if CheckNames(properties[0].value).Fail? {
          var name :| name in CheckedNames(properties[0].value) && IsForbidden(name);
          assert 0 <= 0 < |properties| && name in CheckedNames(properties[0].value);
        } else {
          var i, name :| 0 <= i < |properties[1..]| && name in CheckedNames(properties[1..][i].value) && IsForbidden(name);
          assert name in CheckedNames(properties[i + 1].value);
        }
      } else {
        forall i, name | 0 <= i < |properties| && name in CheckedNames(properties[i].value)
          ensures !IsForbidden(name)
        {
          if i > 0 {
            assert properties[i] == properties[1..][i - 1];
          }
        }
      }
    }
  }

  // ---------------------------------------------------------------------------
  // Literal escaping

  /** Characters `stringEscapeRegex` leaves alone: space, ASCII letters and digits. */
  predicate IsPlainChar(c: char) {
    c == ' ' || ('a' <= c <= 'z') || ('A' <= c <= 'Z') || IsDigit(c)
  }

  /** `n.toString(16)`: lower-case hexadecimal without leading zeros. */
  function ToHex(n: nat): (r: string)
    ensures |r| >= 1
    ensures forall k :: 0 <= k < |r| ==> IsHexDigit(r[k])
    ensures HexValue(r) == n
  {
    if n < 16 then
      [HexDigit(n)]
    else
      var r := ToHex(n / 16) + [HexDigit(n % 16)];
      assert r[..|r| - 1] == ToHex(n / 16);
      r
  }

  /** `s.slice(-4)`: the last four characters, or all of them if there are fewer. */
  function SliceLast4(s: string): (r: string)
    ensures |s| >= 4 ==> |r| == 4 && s == s[..|s| - 4] + r
  {
    if |s| >= 4 then s[|s| - 4..] else s
  }

  /**
   * The UTF-16 code units of a character: itself below U+10000, otherwise a
   * high and a low surrogate. JavaScript strings are sequences of these units,
   * and a regular expression without the `u` flag matches them one at a time.
   */
  function CodeUnits(c: char): (r: seq<nat>)
    ensures 1 <= |r| <= 2
    ensures forall k :: 0 <= k < |r| ==> r[k] < 0x1_0000
    ensures c as int < 0x1_0000 <==> |r| == 1
    ensures c as int < 0x1_0000 ==> r[0] == c as int
    ensures |r| == 2 ==> 0xD800 <= r[0] < 0xDC00 && 0xDC00 <= r[1] < 0xE000
    ensures |r| == 2 ==> (r[0] - 0xD800) * 0x400 + (r[1] - 0xDC00) + 0x1_0000 == c as int
  {
    if c as int < 0x1_0000 then [c as int]
    else
      var v := c as int - 0x1_0000;
      [0xD800 + v / 0x400, 0xDC00 + v % 0x400]
  }

  /**
   * `stringEscapeFn` applied to one code unit: a six-character `\uXXXX` whose
   * four zero-padded hexadecimal digits spell the unit.
   */
  function StringEscapeFn(unit: nat): (r: string)
    requires unit < 0x1_0000
    ensures |r| == 6 && r[0] == '\\' && r[1] == 'u'
    ensures forall k :: 2 <= k < 6 ==> IsHexDigit(r[k])
    ensures HexValue(r[2..]) == unit
  {
    var last4 := SliceLast4("0000" + ToHex(unit));
    LastFourDigits(unit);
    assert unit % 0x1_0000 == unit;
    BackslashU(last4);
    "\\u" + last4
  }

  lemma BackslashU(digits: string)
    requires |digits| == 4
    ensures var r := "\\u" + digits;
      |r| == 6 && r[0] == '\\' && r[1] == 'u' && r[2..] == digits
      && forall k :: 2 <= k < 6 ==> r[k] == digits[k - 2]
  {
  }

  /** The characters an escaped body is made of. */
  predicate InEscapedAlphabet(c: char) {
    IsPlainChar(c) || c == '\\' || c == 'u' || IsHexDigit(c)
  }

  /**
   * What the `replace` makes of one character: a plain one stays, any other
   * becomes one `stringEscapeFn` escape per code unit.
   */
  function EscapeChar(c: char): (r: string)
    ensures IsPlainChar(c) ==> r == [c]
    ensures !IsPlainChar(c) && |CodeUnits(c)| == 1 ==> r == StringEscapeFn(c as int)
    ensures !IsPlainChar(c) && |CodeUnits(c)| == 2 ==>
      r == StringEscapeFn(CodeUnits(c)[0]) + StringEscapeFn(CodeUnits(c)[1])
    ensures forall k :: 0 <= k < |r| ==> InEscapedAlphabet(r[k])
  {
    if IsPlainChar(c) then [c]
    else
      var units := CodeUnits(c);
      if |units| == 1 then StringEscapeFn(units[0])
      else StringEscapeFn(units[0]) + StringEscapeFn(units[1])
  }

  /** The body of an escaped string: `s.replace(/[^ a-zA-Z0-9]/g, stringEscapeFn)`. */
  function EscapeBody(s: string): (r: string)
    ensures forall k :: 0 <= k < |r| ==> InEscapedAlphabet(r[k])
  {
    if s == [] then []
    else EscapeChar(s[0]) + EscapeBody(s[1..])
  }

  /** Escaping works character by character: the body of a concatenation is the concatenation of the bodies. */
  lemma {:induction false} EscapeBodyAppend(a: string, b: string)
    ensures EscapeBody(a + b) == EscapeBody(a) + EscapeBody(b)
    decreases |a|
  {
    if a == [] {
      assert a + b == b;
    } else {
      assert (a + b)[0] == a[0] && (a + b)[1..] == a[1..] + b;
      EscapeBodyAppend(a[1..], b);
    }
  }

  /** A space, letter or digit is kept; any other character becomes one `\uXXXX` per code unit. */
  lemma EscapeBodyOne(c: char)
    ensures EscapeBody([c]) == EscapeChar(c)
    ensures !IsPlainChar(c) ==> |EscapeBody([c])| == 6 * |CodeUnits(c)|
  {
    assert [c][1..] == [];
  }

  lemma SurrogatesOf1F600()
    ensures CodeUnits('\U{1F600}') == [0xD83D, 0xDE00]
  {
    var v := 0x1F600 - 0x1_0000;
    assert v / 0x400 == 0x3D && v % 0x400 == 0x200;
  }

  /**
   * A character above U+FFFF is written as the escapes of its two surrogates:
   * U+1F600 becomes the escape of 0xD83D followed by that of 0xDE00, that is
   * `\ud83d\ude00`.
   */
  lemma AstralEscape()
    ensures EscapeBody("\U{1F600}") == StringEscapeFn(0xD83D) + StringEscapeFn(0xDE00)
  {
    var c := '\U{1F600}';
    assert EscapeBody("\U{1F600}") == EscapeChar(c) by {
      assert "\U{1F600}" == [c];
      EscapeBodyOne(c);
    }
    SurrogatesOf1F600();
  }

  /** How `escape` renders a literal: source text, or the value itself, converted by concatenation. */
  datatype Escaped = Code(text: string) | Passthrough(value: LiteralValue)

  /**
   * `escape`: a string is wrapped in single quotes with its body escaped,
   * `null` becomes `null`, and any other value passes through.
   */
  function Escape(v: LiteralValue): (r: Escaped)
    ensures v.StringLiteral? ==> r.Code? && |r.text| >= 2 && r.text[0] == '\'' && r.text[|r.text| - 1] == '\''
    ensures v.StringLiteral? ==> forall k :: 0 < k < |r.text| - 1 ==> r.text[k] != '\''
    ensures v == NullLiteral ==> r == Code("null")
    ensures !v.StringLiteral? && v != NullLiteral ==> r == Passthrough(v)
  {
    match v
    case StringLiteral(s) => Code("'" + EscapeBody(s) + "'")
    case NullLiteral => Code("null")
    case _ => Passthrough(v)
  }

  // ---------------------------------------------------------------------------
  // Hexadecimal facts

  lemma {:induction false} HexSplit(t: string, u: string)
    requires forall k :: 0 <= k < |t| ==> IsHexDigit(t[k])
    requires forall k :: 0 <= k < |u| ==> IsHexDigit(u[k])
    ensures forall k :: 0 <= k < |t + u| ==> IsHexDigit((t + u)[k])
    ensures HexValue(t + u) == HexValue(t) * Pow16(|u|) + HexValue(u)
    decreases |u|
  {
    if u == [] {
      assert t + u == t;
    } else {
      var u' := u[..|u| - 1];
      var d := HexDigitValue(u[|u| - 1]);
      HexSplit(t, u');
      var whole := t + u;
      assert whole[..|whole| - 1] == t + u' && whole[|whole| - 1] == u[|u| - 1];
      assert u[..|u| - 1] == u';
      ShiftDigit(HexValue(t), Pow16(|u'|), HexValue(u'), d,
                 HexValue(t + u'), HexValue(whole), HexValue(u), Pow16(|u|));
    }
  }

  /** Appending a digit `d` to both `t + u'` and `u'` keeps `t`'s place value right. */
  lemma ShiftDigit(a: int, p: int, b: int, d: int, x: int, w: int, v: int, q: int)
    requires x == a * p + b && w == x * 16 + d && v == b * 16 + d && q == 16 * p
    ensures w == a * q + v
  {
  }

  /** The last four digits of the zero-padded hexadecimal form denote the value modulo `16^4`. */
  lemma LastFourDigits(n: nat)
    ensures var last4 := SliceLast4("0000" + ToHex(n));
      |last4| == 4 && (forall k :: 0 <= k < 4 ==> IsHexDigit(last4[k])) && HexValue(last4) == n % 0x1_0000
  {
    var padded := "0000" + ToHex(n);
    var last4 := SliceLast4(padded);
    var prefix := padded[..|padded| - 4];
    assert HexValue("0000") == 0 by {
      assert "0000"[..3] == "000" && "000"[..2] == "00" && "00"[..1] == "0" && "0"[..0] == "";
    }
    HexSplit("0000", ToHex(n));
    HexSplit(prefix, last4);
    assert HexValue(padded) == n;
    assert HexValue(padded) == HexValue(prefix) * 0x1_0000 + HexValue(last4) by {
      assert Pow16(4) == 0x1_0000;
    }
    HexValueBound(last4);
    assert Pow16(4) == 0x1_0000;
    SixteenBitRemainder(n, HexValue(prefix), HexValue(last4));
  }

  lemma SixteenBitRemainder(a: int, q: int, r: int)
    requires 0 <= r < 0x1_0000 && a == q * 0x1_0000 + r
    ensures r == a % 0x1_0000
  {
  }

  // ---------------------------------------------------------------------------
  // ifDefined

  /** `ifDefined`: the value, or the default when the value is `undefined`. */
  function IfDefined(value: Value, defaultValue: Value): (r: Value)
    ensures value != Undefined ==> r == value
    ensures value == Undefined ==> r == defaultValue
  {
    if value.Undefined? then defaultValue else value
  }
}
