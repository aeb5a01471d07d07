/**
 * The grammar's precedence and associativity, stated as a round trip. A
 * printer that writes a tree with the fewest parentheses the grammar needs
 * (`Render`) is read back by the parser into the very same tree
 * (`RenderThenParse`). The printer decides when parentheses are needed from
 * precedence and left associativity alone, so the round trip holding says
 * the parser groups operators exactly that way: `a - b - c` is `(a - b) - c`,
 * `a + b * c` is `a + (b * c)`, `!-a` nests to the right, and so on.
 *
 * Grammar levels, lowest first: 0 assignment, 1 ternary, 2 to 7 the six
 * binary levels (`||`, `&&`, equality, relational, additive,
 * multiplicative), 8 unary, 9 primary.
 */
module ParserProps {
  import opened Wrappers
  import opened CharClass
  import opened Lexer
  import opened Parser
  import opened ParserSteps

  /** The binary level whose loop consumes `op`, or -1 if none does. */
  function BinaryLevelOf(op: string): (r: int)
    ensures -1 <= r <= MultiplicativeLevel
    ensures r >= 0 ==> op in LevelOperators(r)
    ensures r == -1 ==> forall k :: 0 <= k <= MultiplicativeLevel ==> op !in LevelOperators(k)
  {
    if op == "||" then 0
    else if op == "&&" then 1
    else if op in {"==", "!=", "===", "!=="} then 2
    else if op in {"<", ">", "<=", ">="} then 3
    else if op in {"+", "-"} then 4
    else if op in {"*", "/", "%"} then 5
    else -1
  }

  lemma LevelOperatorsDisjoint(k: nat, op: string)
    requires k <= MultiplicativeLevel && op in LevelOperators(k)
    ensures BinaryLevelOf(op) == k
  {
  }

  /** The grammar level a node belongs to. */
  function Level(n: Node): (r: nat)
    ensures r <= 9
  {
    match n
    case AssignmentExpression(_, _) => 0
    case ConditionalExpression(_, _, _) => 1
    case LogicalExpression(_, op, _) => if BinaryLevelOf(op) >= 0 then 2 + BinaryLevelOf(op) else 9
    case BinaryExpression(_, op, _) => if BinaryLevelOf(op) >= 0 then 2 + BinaryLevelOf(op) else 9
    case UnaryExpression(_, _) => 8
    case _ => 9
  }

  // ---------------------------------------------------------------------------
  // The trees the parser can build

  predicate LiteralWF(v: LiteralValue) {
    match v
    case UndefinedLiteral => false
    case NumberLiteral(text) => |text| > 0 && IsDigit(text[0])
    case _ => true
  }

  /** Object keys come from one identifier, number or string token. */
  predicate KeyWF(key: Node) {
    || (key.Identifier? && IsIdentifierText(key.name))
    || (key.Literal? && (key.value.StringLiteral? || (key.value.NumberLiteral? && LiteralWF(key.value))))
  }

  /**
   * The trees the parser builds from tokens, leaving out the `undefined`
   * literal `constant()` makes of a stray punctuation token.
   */
  predicate WF(n: Node)
    decreases n, 1
  {
    match n
    case Program(_) => false
    case Literal(v) => LiteralWF(v)
    case ArrayExpression(elements) => AllWF(elements)
    case ObjectExpression(properties) => PropertiesWF(properties)
    case Identifier(name) => IsIdentifierText(name) && name !in Constants
    case ThisExpression => true
    case MemberExpression(target, property, computed) =>
      WF(target) && if computed then WF(property) else property.Identifier?
    case CallExpression(callee, arguments) => WF(callee) && AllWF(arguments)
    case AssignmentExpression(left, right) => WF(left) && WF(right)
    case UnaryExpression(op, argument) => op in {"+", "!", "-"} && WF(argument)
    case BinaryExpression(left, op, right) => BinaryLevelOf(op) >= EqualityLevel && WF(left) && WF(right)
    case LogicalExpression(left, op, right) => 0 <= BinaryLevelOf(op) <= LogicalAndLevel && WF(left) && WF(right)
    case ConditionalExpression(test, consequent, alternate) => WF(test) && WF(consequent) && WF(alternate)
  }
  /** Every node of the list is well formed. */
  predicate AllWF(nodes: seq<Node>)
    decreases nodes, 0
  {
    nodes == [] || (WF(nodes[0]) && AllWF(nodes[1..]))
  }

  predicate PropertyWF(p: Property)
    decreases p, 0
  {
    KeyWF(p.key) && WF(p.value)
  }

  predicate PropertiesWF(properties: seq<Property>)
    decreases properties, 1
  {
    properties == [] || (PropertyWF(properties[0]) && PropertiesWF(properties[1..]))
  }


  // ---------------------------------------------------------------------------
  // The printer

  function LiteralToken(v: LiteralValue): Token {
    match v
    case UndefinedLiteral => Tok("undefined")
    case NullLiteral => Token("null", NoValue, true)
    case BoolLiteral(b) => Token(if b then "true" else "false", NoValue, true)
    case NumberLiteral(text) => Token(text, NumberText(text), false)
    case StringLiteral(s) => Token("'" + s + "'", StringValue(s), false)
  }

  function KeyToken(key: Node): Token {
    if key.Identifier? then Token(key.name, NoValue, true)
    else if key.Literal? then LiteralToken(key.value)
    else Tok("")
  }

  /** A node's tokens, in parentheses when its level is below `m`. */
  function RenderAt(m: nat, n: Node): seq<Token>
    decreases n, 1
  {
    if Level(n) >= m then Render(n) else [Tok("(")] + Render(n) + [Tok(")")]
  }

  /** The tokens of a node, each operand parenthesised only where the grammar needs it. */
  function Render(n: Node): seq<Token>
    decreases n, 0
  {
    match n
    case Program(body) => RenderAt(0, body)
    case Literal(v) => [LiteralToken(v)]
    case ArrayExpression(elements) => [Tok("[")] + RenderList(elements) + [Tok("]")]
    case ObjectExpression(properties) => [Tok("{")] + RenderProperties(properties) + [Tok("}")]
    case Identifier(name) => [Token(name, NoValue, true)]
    case ThisExpression => [Token("this", NoValue, true)]
    case MemberExpression(target, property, computed) =>
      if computed then RenderAt(9, target) + [Tok("[")] + RenderAt(9, property) + [Tok("]")]
      else RenderAt(9, target) + [Tok("."), KeyToken(property)]
    case CallExpression(callee, arguments) => RenderAt(9, callee) + [Tok("(")] + RenderList(arguments) + [Tok(")")]
    case AssignmentExpression(left, right) => RenderAt(2, left) + [Tok("=")] + RenderAt(1, right)
    case UnaryExpression(op, argument) => [Tok(op)] + RenderAt(8, argument)
    case BinaryExpression(left, op, right) => RenderAt(Level(n), left) + [Tok(op)] + RenderAt(Level(n) + 1, right)
    case LogicalExpression(left, op, right) => RenderAt(Level(n), left) + [Tok(op)] + RenderAt(Level(n) + 1, right)
    case ConditionalExpression(test, consequent, alternate) =>
      RenderAt(2, test) + [Tok("?")] + RenderAt(0, consequent) + [Tok(":")] + RenderAt(0, alternate)
  }

  /** Comma-separated assignments, as in array literals and argument lists. */
  function RenderList(nodes: seq<Node>): seq<Token>
    decreases nodes, 2
  {
    if nodes == [] then []
    else if |nodes| == 1 then RenderAt(0, nodes[0])
    else RenderAt(0, nodes[0]) + [Tok(",")] + RenderList(nodes[1..])
  }

  /** One `key: value` pair. */
  function RenderProperty(p: Property): seq<Token>
    decreases p, 2
  {
    [KeyToken(p.key), Tok(":")] + RenderAt(0, p.value)
  }

  function RenderProperties(properties: seq<Property>): seq<Token>
    decreases properties, 3
  {
    if properties == [] then []
    else if |properties| == 1 then RenderProperty(properties[0])
    else RenderProperty(properties[0]) + [Tok(",")] + RenderProperties(properties[1..])
  }

  // ---------------------------------------------------------------------------
  // Where a level's parse stops

  /**
   * The highest level whose parse goes on past a token with this text: `=`
   * and `?` continue levels 0 and 1, a binary operator its own level and
   * those below, `[`, `.` and `(` every level. -1 for a token that ends them all.
   */
  function ContinuationLevel(text: string): int {
    if text == "=" || text == "?" then 1
    else if text == "[" || text == "." || text == "(" then 9
    else if BinaryLevelOf(text) >= 0 then 2 + BinaryLevelOf(text)
    else -1
  }

  /** The tokens after a level-`m` expression end it. */
  predicate Stops(m: nat, rest: seq<Token>) {
    rest == [] || ContinuationLevel(rest[0].text) < m
  }

  /** A token that can begin an operand. */
  predicate OperandStart(t: Token) {
    || t.text in {"(", "[", "{", "+", "!", "-"}
    || IsIdentifierText(t.text)
    || (|t.text| > 0 && (IsDigit(t.text[0]) || t.text[0] == '\''))
  }

  /** A token that can begin a primary. */
  predicate PrimaryStart(t: Token) {
    OperandStart(t) && t.text !in {"+", "!", "-"}
  }

  lemma {:induction false} FirstToken(n: Node)
    requires WF(n)
    ensures |Render(n)| > 0 && OperandStart(Render(n)[0])
    ensures Level(n) == 9 ==> PrimaryStart(Render(n)[0])
    decreases n, 0
  {
    match n
    case MemberExpression(target, property, computed) =>
      FirstTokenAt(9, target);
    case CallExpression(callee, arguments) =>
      FirstTokenAt(9, callee);
    case AssignmentExpression(left, right) =>
      FirstTokenAt(2, left);
    case BinaryExpression(left, op, right) =>
      FirstTokenAt(Level(n), left);
    case LogicalExpression(left, op, right) =>
      FirstTokenAt(Level(n), left);
    case ConditionalExpression(test, consequent, alternate) =>
      FirstTokenAt(2, test);
    case _ =>
  }

  lemma {:induction false} FirstTokenAt(m: nat, n: Node)
    requires WF(n)
    ensures |RenderAt(m, n)| > 0 && OperandStart(RenderAt(m, n)[0])
    ensures m == 9 ==> PrimaryStart(RenderAt(m, n)[0])
    decreases n, 1
  {
    FirstToken(n);
  }

  // ---------------------------------------------------------------------------
  // The round trip, level by level

  /** How far level `m` is from handling `n` itself: climbing to `Level(n)`, or past it into parentheses. */
  function Distance(m: nat, n: Node): nat
    requires m <= 9
  {
    if m <= Level(n) then Level(n) - m else 20 - m
  }

  lemma KeyTokenRoundTrip(key: Node)
    requires KeyWF(key)
    ensures KeyNode(KeyToken(key)) == key
    ensures PrimaryStart(KeyToken(key)) && KeyToken(key).text != "}"
  {
  }

  lemma LiteralTokenIsNoOpener(v: LiteralValue)
    requires LiteralWF(v)
    ensures LiteralToken(v).text !in {"(", "[", "{"}
  {
    match v
    case StringLiteral(s) =>
      assert LiteralToken(v).text[0] == '\'';
    case NumberLiteral(text) =>
      assert IsDigit(LiteralToken(v).text[0]);
    case _ =>
  }

  /** No operand begins with a closing bracket, a comma or a colon. */
  lemma OperandStartIsNotCloser(t: Token)
    requires OperandStart(t)
    ensures t.text !in {"]", ")", "}", ",", ":"}
  {
  }

  /** Tokens that end level 1 end level 0 too: no operator continues exactly the assignment level. */
  lemma StopsBelow(rest: seq<Token>)
    requires Stops(1, rest)
    ensures Stops(0, rest)
  {
  }

  /** Regrouping a concatenation to the right, so that each grammar step sees its own first token. */
  lemma DropHead<T>(x: T, rest: seq<T>)
    ensures ([x] + rest)[1..] == rest
  {
  }

  lemma DropPair<T>(x: T, y: T, rest: seq<T>)
    ensures var s := [x, y] + rest; |s| > 1 && s[0] == x && s[1] == y && s[2..] == rest
  {
  }

  lemma ConsTail<T>(s: seq<T>)
    requires |s| > 0
    ensures [s[0]] + s[1..] == s
  {
  }

  lemma Singleton<T>(s: seq<T>)
    requires |s| == 1
    ensures [s[0]] == s
  {
  }

  lemma EmptyPrefix<T>(s: seq<T>)
    ensures [] + s == s && s + [] == s
  {
  }

  lemma Regroup2<T>(a: seq<T>, b: seq<T>, rest: seq<T>)
    ensures a + b + rest == a + (b + rest)
  {
  }

  lemma Regroup3<T>(a: seq<T>, b: seq<T>, c: seq<T>, rest: seq<T>)
    ensures a + b + c + rest == a + (b + (c + rest))
  {
  }

  lemma Regroup4<T>(a: seq<T>, b: seq<T>, c: seq<T>, d: seq<T>, rest: seq<T>)
    ensures a + b + c + d + rest == a + (b + (c + (d + rest)))
  {
  }

  lemma Regroup5<T>(a: seq<T>, b: seq<T>, c: seq<T>, d: seq<T>, e: seq<T>, rest: seq<T>)
    ensures a + b + c + d + e + rest == a + (b + (c + (d + (e + rest))))
  {
  }

  // The tokens of each kind of node, as the steps of the grammar read them.

  lemma AssignmentShape(n: Node)
    requires n.AssignmentExpression?
    ensures RenderAt(0, n) == RenderAt(2, n.left) + [Tok("=")] + RenderAt(1, n.right)
  {
  }

  lemma ConditionalShape(n: Node)
    requires n.ConditionalExpression?
    ensures RenderAt(1, n)
         == RenderAt(2, n.test) + [Tok("?")] + RenderAt(0, n.consequent) + [Tok(":")] + RenderAt(0, n.alternate)
  {
  }

  lemma BinaryShape(k: nat, n: Node)
    requires k <= MultiplicativeLevel && Level(n) == 2 + k
    ensures (n.BinaryExpression? || n.LogicalExpression?) && BinaryLevelOf(n.operator) == k
    ensures RenderAt(2 + k, n) == RenderAt(2 + k, n.left) + [Tok(n.operator)] + RenderAt(3 + k, n.right)
  {
  }

  lemma SameRendering(k: nat, n: Node)
    requires k <= 8 && Level(n) != k
    ensures RenderAt(k, n) == RenderAt(k + 1, n)
  {
  }

  lemma UnaryShape(n: Node)
    requires n.UnaryExpression?
    ensures RenderAt(8, n) == [Tok(n.operator)] + RenderAt(8, n.argument)
  {
  }

  lemma ParenthesesShape(n: Node)
    requires Level(n) < 9
    ensures RenderAt(9, n) == [Tok("(")] + RenderAt(0, n) + [Tok(")")]
  {
  }

  lemma ArrayShape(n: Node)
    requires n.ArrayExpression?
    ensures RenderAt(9, n) == [Tok("[")] + RenderList(n.elements) + [Tok("]")]
  {
  }

  lemma ObjectShape(n: Node)
    requires n.ObjectExpression?
    ensures RenderAt(9, n) == [Tok("{")] + RenderProperties(n.properties) + [Tok("}")]
  {
  }

  lemma ComputedMemberShape(n: Node)
    requires n.MemberExpression? && n.computed
    ensures RenderAt(9, n) == RenderAt(9, n.target) + [Tok("[")] + RenderAt(9, n.property) + [Tok("]")]
  {
  }

  lemma DotMemberShape(n: Node)
    requires n.MemberExpression? && !n.computed
    ensures RenderAt(9, n) == RenderAt(9, n.target) + [Tok("."), KeyToken(n.property)]
  {
  }

  lemma CallShape(n: Node)
    requires n.CallExpression?
    ensures RenderAt(9, n) == RenderAt(9, n.callee) + [Tok("(")] + RenderList(n.arguments) + [Tok(")")]
  {
  }

  lemma ListShape(nodes: seq<Node>)
    requires |nodes| > 1
    ensures RenderList(nodes) == RenderAt(0, nodes[0]) + [Tok(",")] + RenderList(nodes[1..])
  {
  }

  lemma PropertiesShape(properties: seq<Property>)
    requires properties != []
    ensures var p := properties[0];
      var first := [KeyToken(p.key), Tok(":")] + RenderAt(0, p.value);
      RenderProperties(properties)
        == if |properties| == 1 then first else first + [Tok(",")] + RenderProperties(properties[1..])
  {
  }

  lemma PrimaryTailStops(n: Node, rest: seq<Token>)
    requires Stops(9, rest)
    ensures PrimaryTail(n, rest) == Ok(Parsed(n, rest))
  {
    PrimaryTailStop(n, rest);
  }

  /** Closing punctuation ends every level; `=` and `?` go on only at levels 0 and 1. */
  lemma PunctuationContinues()
    ensures ContinuationLevel(":") == -1 && ContinuationLevel(",") == -1
    ensures ContinuationLevel(")") == -1 && ContinuationLevel("]") == -1 && ContinuationLevel("}") == -1
    ensures ContinuationLevel("=") == 1 && ContinuationLevel("?") == 1
  {
  }

  /** Each operator's continuation level is the level of its own loop. */
  lemma OperatorContinues(op: string)
    requires BinaryLevelOf(op) >= 0
    ensures ContinuationLevel(op) == 2 + BinaryLevelOf(op)
  {
  }

  /** The operand of binary level `k`, rendered for level `k + 3`, is read by the next level up. */
  lemma {:induction false} OperandRoundTrip(k: nat, n: Node, rest: seq<Token>)
    requires k <= MultiplicativeLevel && WF(n) && Stops(3 + k, rest)
    ensures Operand(k, RenderAt(3 + k, n) + rest) == Ok(Parsed(n, rest))
    decreases n, Distance(3 + k, n), 4
  {
    if k < MultiplicativeLevel {
      BinaryRoundTrip(k + 1, n, rest);
    } else {
      UnaryRoundTrip(n, rest);
    }
  }

  lemma {:induction false} AssignmentRoundTrip(n: Node, rest: seq<Token>)
    requires WF(n) && Stops(0, rest)
    ensures Assignment(RenderAt(0, n) + rest) == Ok(Parsed(n, rest))
    decreases n, Distance(0, n), 3
  {
    if Level(n) == 0 {
      AssignmentNodeRoundTrip(n, rest);
    } else {
      SameRendering(0, n);
      TernaryRoundTrip(n, rest);
      AssignmentFromTernary(RenderAt(0, n) + rest, n, rest);
    }
  }

  lemma {:induction false} AssignmentNodeRoundTrip(n: Node, rest: seq<Token>)
    requires n.AssignmentExpression? && WF(n) && Stops(0, rest)
    ensures Assignment(RenderAt(0, n) + rest) == Ok(Parsed(n, rest))
    decreases n, Distance(0, n), 2
  {
    var toks := RenderAt(0, n) + rest;
    var AssignmentExpression(left, right) := n;
    var mid := [Tok("=")] + (RenderAt(1, right) + rest);
    AssignmentShape(n);
    Regroup3(RenderAt(2, left), [Tok("=")], RenderAt(1, right), rest);
    PunctuationContinues();
    BinaryRoundTrip(LogicalOrLevel, left, mid);
    TernaryFromLogicalOr(toks, left, mid);
    TernaryRoundTrip(right, rest);
    AssignmentStep(toks, left, mid, right, rest);
  }

  lemma {:induction false} TernaryRoundTrip(n: Node, rest: seq<Token>)
    requires WF(n) && Stops(1, rest)
    ensures Ternary(RenderAt(1, n) + rest) == Ok(Parsed(n, rest))
    decreases n, Distance(1, n), 3
  {
    if Level(n) == 1 {
      ConditionalRoundTrip(n, rest);
    } else {
      SameRendering(1, n);
      BinaryRoundTrip(LogicalOrLevel, n, rest);
      TernaryFromLogicalOr(RenderAt(1, n) + rest, n, rest);
    }
  }

  lemma {:induction false} ConditionalRoundTrip(n: Node, rest: seq<Token>)
    requires n.ConditionalExpression? && WF(n) && Stops(1, rest)
    ensures Ternary(RenderAt(1, n) + rest) == Ok(Parsed(n, rest))
    decreases n, Distance(1, n), 2
  {
    var toks := RenderAt(1, n) + rest;
    var ConditionalExpression(test, consequent, alternate) := n;
    var after := [Tok(":")] + (RenderAt(0, alternate) + rest);
    var mid := [Tok("?")] + (RenderAt(0, consequent) + after);
    ConditionalShape(n);
    PunctuationContinues();
    Regroup5(RenderAt(2, test), [Tok("?")], RenderAt(0, consequent), [Tok(":")], RenderAt(0, alternate), rest);
    BinaryRoundTrip(LogicalOrLevel, test, mid);
    AssignmentRoundTrip(consequent, after);
    StopsBelow(rest);
    AssignmentRoundTrip(alternate, rest);
    TernaryStep(toks, test, mid, consequent, after, alternate, rest);
  }

  lemma {:induction false} BinaryRoundTrip(k: nat, n: Node, rest: seq<Token>)
    requires k <= MultiplicativeLevel && WF(n) && Stops(2 + k, rest)
    ensures BinaryLevel(k, RenderAt(2 + k, n) + rest) == Ok(Parsed(n, rest))
    decreases n, Distance(2 + k, n), 3
  {
    LeftChain(k, n, rest);
    if rest != [] && rest[0].text in LevelOperators(k) {
      LevelOperatorsDisjoint(k, rest[0].text);
    }
    LevelTailStop(k, n, rest);
  }

  /**
   * The loop of binary level `k` folds to the left: after reading the tokens
   * of `n` it continues with `n` as the left operand.
   */
  lemma {:induction false} LeftChain(k: nat, n: Node, rest: seq<Token>)
    requires k <= MultiplicativeLevel && WF(n) && Stops(3 + k, rest)
    ensures BinaryLevel(k, RenderAt(2 + k, n) + rest) == LevelTail(k, n, rest)
    decreases n, Distance(2 + k, n), 2
  {
    if Level(n) == 2 + k {
      BinaryNodeChain(k, n, rest);
    } else {
      var toks := RenderAt(2 + k, n) + rest;
      SameRendering(2 + k, n);
      OperandRoundTrip(k, n, rest);
      BinaryLevelFromOperand(k, toks, n, rest);
    }
  }

  lemma {:induction false} BinaryNodeChain(k: nat, n: Node, rest: seq<Token>)
    requires k <= MultiplicativeLevel && Level(n) == 2 + k && WF(n) && Stops(3 + k, rest)
    ensures BinaryLevel(k, RenderAt(2 + k, n) + rest) == LevelTail(k, n, rest)
    decreases n, Distance(2 + k, n), 1
  {
    BinaryShape(k, n);
    var toks := RenderAt(2 + k, n) + rest;
    var left, op, right := n.left, n.operator, n.right;
    var mid := [Tok(op)] + (RenderAt(3 + k, right) + rest);
    assert toks == RenderAt(2 + k, left) + mid by {
      Regroup3(RenderAt(2 + k, left), [Tok(op)], RenderAt(3 + k, right), rest);
    }
    assert BinaryLevel(k, toks) == LevelTail(k, left, mid) by {
      OperatorContinues(op);
      LeftChain(k, left, mid);
    }
    assert Operand(k, mid[1..]) == Ok(Parsed(right, rest)) by {
      DropHead(Tok(op), RenderAt(3 + k, right) + rest);
      OperandRoundTrip(k, right, rest);
    }
    LevelTailStep(k, left, mid, right, rest);
    assert Combine(k, left, op, right) == n;
  }

  lemma {:induction false} UnaryRoundTrip(n: Node, rest: seq<Token>)
    requires WF(n) && Stops(8, rest)
    ensures Unary(RenderAt(8, n) + rest) == Ok(Parsed(n, rest))
    decreases n, Distance(8, n), 3
  {
    var toks := RenderAt(8, n) + rest;
    if Level(n) == 8 {
      assert toks == [Tok(n.operator)] + (RenderAt(8, n.argument) + rest) by {
        UnaryShape(n);
        Regroup2([Tok(n.operator)], RenderAt(8, n.argument), rest);
      }
      assert Unary(toks[1..]) == Ok(Parsed(n.argument, rest)) by {
        DropHead(Tok(n.operator), RenderAt(8, n.argument) + rest);
        UnaryRoundTrip(n.argument, rest);
      }
      UnaryStep(toks, n.argument, rest);
    } else {
      assert Unary(toks) == Primary(RenderAt(9, n) + rest) by {
        SameRendering(8, n);
        FirstTokenAt(9, n);
        UnaryFromPrimary(toks);
      }
      PrimaryRoundTrip(n, rest);
      PrimaryTailStops(n, rest);
    }
  }

  /** `primary` reads the tokens of `n` and goes on with its member and call loop. */
  lemma {:induction false} PrimaryRoundTrip(n: Node, rest: seq<Token>)
    requires WF(n)
    ensures Primary(RenderAt(9, n) + rest) == PrimaryTail(n, rest)
    decreases n, Distance(9, n), 2
  {
    if Level(n) < 9 {
      ParenthesesRoundTrip(n, rest);
    } else {
      match n
      case Literal(v) =>
        LeafRoundTrip(n, rest);
      case Identifier(name) =>
        LeafRoundTrip(n, rest);
      case ThisExpression =>
        LeafRoundTrip(n, rest);
      case ArrayExpression(elements) =>
        ArrayRoundTrip(n, rest);
      case ObjectExpression(properties) =>
        ObjectLiteralRoundTrip(n, rest);
      case MemberExpression(target, property, computed) =>
        if computed {
          ComputedMemberRoundTrip(n, rest);
        } else {
          DotMemberRoundTrip(n, rest);
        }
      case CallExpression(callee, arguments) =>
        CallRoundTrip(n, rest);
    }
  }

  lemma {:induction false} ParenthesesRoundTrip(n: Node, rest: seq<Token>)
    requires WF(n) && Level(n) < 9
    ensures Primary(RenderAt(9, n) + rest) == PrimaryTail(n, rest)
    decreases n, Distance(9, n), 1
  {
    var toks := RenderAt(9, n) + rest;
    var after := [Tok(")")] + rest;
    ParenthesesShape(n);
    Regroup3([Tok("(")], RenderAt(0, n), [Tok(")")], rest);
    PunctuationContinues();
    AssignmentRoundTrip(n, after);
    ParenthesisedStep(toks, n, after);
  }

  /** The node `primary` builds from a leaf's single token is the leaf. */
  lemma LeafToken(n: Node) returns (t: Token)
    requires WF(n) && (n.Literal? || n.Identifier? || n.ThisExpression?)
    ensures RenderAt(9, n) == [t] && t.text !in {"(", "[", "{"}
    ensures (if t.text in Constants then ConstantNode(t.text) else KeyNode(t)) == n
  {
    match n
    case Literal(v) =>
      t := LiteralToken(v);
      LiteralTokenIsNoOpener(v);
      match v {
        case NumberLiteral(text) =>
          assert t.text[0] != "null"[0] && t.text[0] != "true"[0] && t.text[0] != "false"[0] && t.text[0] != "this"[0];
        case StringLiteral(str) =>
          assert t.text[0] == '\'';
        case _ =>
      }
    case Identifier(name) =>
      t := Token(name, NoValue, true);
    case ThisExpression =>
      t := Token("this", NoValue, true);
  }

  lemma LeafRoundTrip(n: Node, rest: seq<Token>)
    requires WF(n) && (n.Literal? || n.Identifier? || n.ThisExpression?)
    ensures Primary(RenderAt(9, n) + rest) == PrimaryTail(n, rest)
  {
    var t := LeafToken(n);
    LeafStep([t] + rest);
    DropHead(t, rest);
  }

  lemma {:induction false} ArrayRoundTrip(n: Node, rest: seq<Token>)
    requires WF(n) && n.ArrayExpression?
    ensures Primary(RenderAt(9, n) + rest) == PrimaryTail(n, rest)
    decreases n, Distance(9, n), 1
  {
    var toks := RenderAt(9, n) + rest;
    var after := [Tok("]")] + rest;
    ArrayShape(n);
    Regroup3([Tok("[")], RenderList(n.elements), [Tok("]")], rest);
    PunctuationContinues();
    ElementsRoundTrip(n.elements, after);
    ArrayStep(toks, n.elements, after);
  }

  lemma {:induction false} ObjectLiteralRoundTrip(n: Node, rest: seq<Token>)
    requires WF(n) && n.ObjectExpression?
    ensures Primary(RenderAt(9, n) + rest) == PrimaryTail(n, rest)
    decreases n, Distance(9, n), 1
  {
    var toks := RenderAt(9, n) + rest;
    var after := [Tok("}")] + rest;
    ObjectShape(n);
    Regroup3([Tok("{")], RenderProperties(n.properties), [Tok("}")], rest);
    PunctuationContinues();
    ObjectRoundTrip(n.properties, after);
    ObjectStep(toks, n.properties, rest);
  }

  lemma {:induction false} ComputedMemberRoundTrip(n: Node, rest: seq<Token>)
    requires WF(n) && n.MemberExpression? && n.computed
    ensures Primary(RenderAt(9, n) + rest) == PrimaryTail(n, rest)
    decreases n, Distance(9, n), 1
  {
    var toks := RenderAt(9, n) + rest;
    var MemberExpression(target, property, _) := n;
    var after := [Tok("]")] + rest;
    var mid := [Tok("[")] + (RenderAt(9, property) + after);
    ComputedMemberShape(n);
    Regroup4(RenderAt(9, target), [Tok("[")], RenderAt(9, property), [Tok("]")], rest);
    PunctuationContinues();
    PrimaryRoundTrip(target, mid);
    PrimaryRoundTrip(property, after);
    PrimaryTailStop(property, after);
    ComputedMemberStep(target, mid, property, after);
  }

  lemma {:induction false} DotMemberRoundTrip(n: Node, rest: seq<Token>)
    requires WF(n) && n.MemberExpression? && !n.computed
    ensures Primary(RenderAt(9, n) + rest) == PrimaryTail(n, rest)
    decreases n, Distance(9, n), 1
  {
    var MemberExpression(target, property, _) := n;
    var mid := [Tok("."), KeyToken(property)] + rest;
    DotMemberShape(n);
    Regroup2(RenderAt(9, target), [Tok("."), KeyToken(property)], rest);
    PunctuationContinues();
    PrimaryRoundTrip(target, mid);
    DotMemberStep(target, mid);
    DropPair(Tok("."), KeyToken(property), rest);
  }

  lemma {:induction false} CallRoundTrip(n: Node, rest: seq<Token>)
    requires WF(n) && n.CallExpression?
    ensures Primary(RenderAt(9, n) + rest) == PrimaryTail(n, rest)
    decreases n, Distance(9, n), 1
  {
    var toks := RenderAt(9, n) + rest;
    var CallExpression(callee, arguments) := n;
    var after := [Tok(")")] + rest;
    var mid := [Tok("(")] + (RenderList(arguments) + after);
    assert toks == RenderAt(9, callee) + mid by {
      CallShape(n);
      Regroup4(RenderAt(9, callee), [Tok("(")], RenderList(arguments), [Tok(")")], rest);
    }
    assert Primary(toks) == PrimaryTail(callee, mid) by {
      PrimaryRoundTrip(callee, mid);
    }
    assert ParseArguments(mid[1..]) == Ok(Parsed(arguments, after)) by {
      DropHead(Tok("("), RenderList(arguments) + after);
      ArgumentsRoundTrip(arguments, after);
    }
    CallStep(callee, mid, arguments, after);
  }

  /** A non-empty list begins with an operand, so not with a closing bracket. */
  lemma ListHead(nodes: seq<Node>, after: seq<Token>)
    requires nodes != [] && AllWF(nodes)
    ensures var toks := RenderList(nodes) + after;
      |toks| > 0 && toks[0].text !in {"]", ")", "}", ",", ":"}
  {
    assert nodes[0] in nodes;
    FirstTokenAt(0, nodes[0]);
    OperandStartIsNotCloser(RenderAt(0, nodes[0])[0]);
    if |nodes| > 1 {
      ListShape(nodes);
    }
    assert (RenderList(nodes) + after)[0] == RenderAt(0, nodes[0])[0];
  }

  /** The elements of an array literal, up to its closing bracket. */
  lemma {:induction false} ElementsRoundTrip(elements: seq<Node>, after: seq<Token>)
    requires NextIs(after, "]") && AllWF(elements)
    ensures ArrayElements(RenderList(elements) + after) == Ok(Parsed(elements, after))
    decreases elements, 0, 2
  {
    var toks := RenderList(elements) + after;
    if elements == [] {
      EmptyPrefix(after);
      ElementsEmpty(after);
    } else if |elements| == 1 {
      var e := elements[0];
      assert !NextIs(toks, "]") by {
        ListHead(elements, after);
      }
      assert toks == RenderAt(0, e) + after;
      assert Assignment(toks) == Ok(Parsed(e, after)) by {
        PunctuationContinues();
        AssignmentRoundTrip(e, after);
      }
      ElementsLast(toks, e, after);
      Singleton(elements);
    } else {
      ElementsConsRoundTrip(elements, after);
    }
  }

  /** The first of several comma-separated assignments, read up to its comma. */
  lemma {:induction false} ListHeadRoundTrip(nodes: seq<Node>, after: seq<Token>)
    requires |nodes| > 1 && AllWF(nodes)
    ensures var toks := RenderList(nodes) + after;
      var mid := [Tok(",")] + (RenderList(nodes[1..]) + after);
      && Assignment(toks) == Ok(Parsed(nodes[0], mid))
      && NextIs(mid, ",") && mid[1..] == RenderList(nodes[1..]) + after && AllWF(nodes[1..])
    decreases nodes, 0, 0
  {
    var toks := RenderList(nodes) + after;
    var e := nodes[0];
    var mid := [Tok(",")] + (RenderList(nodes[1..]) + after);
    assert toks == RenderAt(0, e) + mid by {
      ListShape(nodes);
      Regroup3(RenderAt(0, e), [Tok(",")], RenderList(nodes[1..]), after);
    }
    PunctuationContinues();
    AssignmentRoundTrip(e, mid);
    DropHead(Tok(","), RenderList(nodes[1..]) + after);
  }

  lemma {:induction false} ElementsConsRoundTrip(elements: seq<Node>, after: seq<Token>)
    requires NextIs(after, "]") && |elements| > 1 && AllWF(elements)
    ensures ArrayElements(RenderList(elements) + after) == Ok(Parsed(elements, after))
    decreases elements, 0, 1
  {
    var toks := RenderList(elements) + after;
    var tail := elements[1..];
    var mid := [Tok(",")] + (RenderList(tail) + after);
    ListHeadRoundTrip(elements, after);
    assert !NextIs(toks, "]") by {
      ListHead(elements, after);
    }
    assert ArrayElements(mid[1..]) == Ok(Parsed(tail, after)) by {
      ElementsRoundTrip(tail, after);
    }
    ElementsCons(toks, elements[0], mid, tail, after);
    ConsTail(elements);
  }

  /** The arguments of a call, up to its closing parenthesis. */
  lemma {:induction false} ArgumentsRoundTrip(arguments: seq<Node>, after: seq<Token>)
    requires NextIs(after, ")") && AllWF(arguments)
    ensures ParseArguments(RenderList(arguments) + after) == Ok(Parsed(arguments, after))
    decreases arguments, 0, 3
  {
    var toks := RenderList(arguments) + after;
    if arguments == [] {
      EmptyPrefix(after);
      ArgumentsEmpty(after);
    } else {
      ListHead(arguments, after);
      ArgumentsNonEmpty(toks);
      ArgumentListRoundTrip(arguments, after);
    }
  }

  lemma {:induction false} ArgumentListRoundTrip(arguments: seq<Node>, after: seq<Token>)
    requires NextIs(after, ")") && arguments != [] && AllWF(arguments)
    ensures ArgumentList(RenderList(arguments) + after) == Ok(Parsed(arguments, after))
    decreases arguments, 0, 2
  {
    if |arguments| == 1 {
      var toks := RenderList(arguments) + after;
      var a := arguments[0];
      assert a in arguments;
      assert toks == RenderAt(0, a) + after;
      PunctuationContinues();
      AssignmentRoundTrip(a, after);
      ArgumentsLast(toks, a, after);
      Singleton(arguments);
    } else {
      ArgumentsConsRoundTrip(arguments, after);
    }
  }

  lemma {:induction false} ArgumentsConsRoundTrip(arguments: seq<Node>, after: seq<Token>)
    requires NextIs(after, ")") && |arguments| > 1 && AllWF(arguments)
    ensures ArgumentList(RenderList(arguments) + after) == Ok(Parsed(arguments, after))
    decreases arguments, 0, 1
  {
    var toks := RenderList(arguments) + after;
    var tail := arguments[1..];
    var mid := [Tok(",")] + (RenderList(tail) + after);
    ListHeadRoundTrip(arguments, after);
    assert ArgumentList(mid[1..]) == Ok(Parsed(tail, after)) by {
      ArgumentListRoundTrip(tail, after);
    }
    ArgumentsCons(toks, arguments[0], mid, tail, after);
    ConsTail(arguments);
  }

  /** An object literal after its opening brace, up to and including its closing brace. */
  lemma {:induction false} ObjectRoundTrip(properties: seq<Property>, after: seq<Token>)
    requires NextIs(after, "}") && PropertiesWF(properties)
    ensures ObjectDeclaration(RenderProperties(properties) + after)
         == Ok(Parsed(ObjectExpression(properties), after[1..]))
    decreases properties, 0, 3
  {
    var toks := RenderProperties(properties) + after;
    if properties == [] {
      EmptyPrefix(after);
      ObjectEmpty(after);
    } else {
      assert properties[0] in properties;
      KeyTokenRoundTrip(properties[0].key);
      PropertiesShape(properties);
      assert toks[0] == KeyToken(properties[0].key);
      PropertyListRoundTrip(properties, after);
      ObjectNonEmpty(toks, properties, after);
    }
  }

  lemma {:induction false} PropertyListRoundTrip(properties: seq<Property>, after: seq<Token>)
    requires NextIs(after, "}") && properties != [] && PropertiesWF(properties)
    ensures PropertyList(RenderProperties(properties) + after) == Ok(Parsed(properties, after))
    decreases properties, 0, 2
  {
    if |properties| == 1 {
      var toks := RenderProperties(properties) + after;
      var p := properties[0];
      assert p in properties;
      assert toks == [KeyToken(p.key), Tok(":")] + (RenderAt(0, p.value) + after) by {
        PropertiesShape(properties);
        Regroup2([KeyToken(p.key), Tok(":")], RenderAt(0, p.value), after);
      }
      PunctuationContinues();
      PropertyRoundTrip(p, after);
      PropertiesLast(toks, p.value, after);
      Singleton(properties);
    } else {
      PropertiesConsRoundTrip(properties, after);
    }
  }

  lemma ListOfPropertiesShape(properties: seq<Property>)
    requires |properties| > 1
    ensures RenderProperties(properties)
         == [KeyToken(properties[0].key), Tok(":")] + RenderAt(0, properties[0].value) + [Tok(",")]
            + RenderProperties(properties[1..])
  {
  }

  /** One `key: value` pair, followed by tokens that end an assignment. */
  lemma {:induction false} PropertyRoundTrip(p: Property, rest: seq<Token>)
    requires PropertyWF(p) && Stops(0, rest)
    ensures var toks := [KeyToken(p.key), Tok(":")] + (RenderAt(0, p.value) + rest);
      |toks| > 1 && toks[1].text == ":" && KeyNode(toks[0]) == p.key
      && Assignment(toks[2..]) == Ok(Parsed(p.value, rest))
    decreases p, 0, 0
  {
    DropPair(KeyToken(p.key), Tok(":"), RenderAt(0, p.value) + rest);
    KeyTokenRoundTrip(p.key);
    assert p.value < p;
    AssignmentRoundTrip(p.value, rest);
  }

  /** The first of several `key: value` pairs, read up to its comma. */
  lemma {:induction false} PropertiesHeadRoundTrip(properties: seq<Property>, after: seq<Token>)
    requires |properties| > 1 && PropertiesWF(properties)
    ensures var toks := RenderProperties(properties) + after;
      var p := properties[0];
      var mid := [Tok(",")] + (RenderProperties(properties[1..]) + after);
      && |toks| > 1 && toks[1].text == ":" && KeyNode(toks[0]) == p.key
      && Assignment(toks[2..]) == Ok(Parsed(p.value, mid))
      && NextIs(mid, ",") && mid[1..] == RenderProperties(properties[1..]) + after
      && PropertiesWF(properties[1..])
    decreases properties, 0, 0
  {
    var toks := RenderProperties(properties) + after;
    var p, tail := properties[0], properties[1..];
    var mid := [Tok(",")] + (RenderProperties(tail) + after);
    assert toks == [KeyToken(p.key), Tok(":")] + (RenderAt(0, p.value) + mid) by {
      ListOfPropertiesShape(properties);
      Regroup4([KeyToken(p.key), Tok(":")], RenderAt(0, p.value), [Tok(",")], RenderProperties(tail), after);
    }
    PunctuationContinues();
    PropertyRoundTrip(p, mid);
    DropHead(Tok(","), RenderProperties(tail) + after);
  }

  lemma {:induction false} PropertiesConsRoundTrip(properties: seq<Property>, after: seq<Token>)
    requires NextIs(after, "}") && |properties| > 1 && PropertiesWF(properties)
    ensures PropertyList(RenderProperties(properties) + after) == Ok(Parsed(properties, after))
    decreases properties, 0, 1
  {
    var toks := RenderProperties(properties) + after;
    var p, tail := properties[0], properties[1..];
    var mid := [Tok(",")] + (RenderProperties(tail) + after);
    PropertiesHeadRoundTrip(properties, after);
    assert PropertyList(mid[1..]) == Ok(Parsed(tail, after)) by {
      PropertyListRoundTrip(tail, after);
    }
    PropertiesCons(toks, p.value, mid, tail, after);
    ConsTail(properties);
  }

  /** The parser reads back every tree the printer writes: precedence and associativity agree. */
  lemma RenderThenParse(n: Node)
    requires WF(n)
    ensures ProgramOf(Render(n)) == Ok(Program(n))
  {
    AssignmentRoundTrip(n, []);
    EmptyPrefix(RenderAt(0, n));
  }
}
