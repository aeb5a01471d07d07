/**
 * One-step facts about the grammar functions: what each of them returns on
 * tokens of a given shape, assuming what the functions it calls return. The
 * round trip in `ParserProps` is assembled from these.
 */
module ParserSteps {
  import opened Wrappers
  import opened Lexer
  import opened Parser

  /** A token with no value and no identifier flag: punctuation or an operator. */
  function Tok(text: string): Token {
    Token(text, NoValue, false)
  }

  // ---------------------------------------------------------------------------
  // assignment and ternary

  lemma AssignmentFromTernary(toks: seq<Token>, n: Node, rest: seq<Token>)
    requires Ternary(toks) == Ok(Parsed(n, rest)) && !NextIs(rest, "=")
    ensures Assignment(toks) == Ok(Parsed(n, rest))
  {
  }

  lemma AssignmentStep(toks: seq<Token>, left: Node, mid: seq<Token>, right: Node, rest: seq<Token>)
    requires Ternary(toks) == Ok(Parsed(left, mid)) && NextIs(mid, "=")
    requires Ternary(mid[1..]) == Ok(Parsed(right, rest))
    ensures Assignment(toks) == Ok(Parsed(AssignmentExpression(left, right), rest))
  {
  }

  lemma TernaryFromLogicalOr(toks: seq<Token>, n: Node, rest: seq<Token>)
    requires BinaryLevel(LogicalOrLevel, toks) == Ok(Parsed(n, rest)) && !NextIs(rest, "?")
    ensures Ternary(toks) == Ok(Parsed(n, rest))
  {
  }

  lemma TernaryStep(toks: seq<Token>, test: Node, mid: seq<Token>, consequent: Node, after: seq<Token>,
                    alternate: Node, rest: seq<Token>)
    requires BinaryLevel(LogicalOrLevel, toks) == Ok(Parsed(test, mid)) && NextIs(mid, "?")
    requires Assignment(mid[1..]) == Ok(Parsed(consequent, after)) && NextIs(after, ":")
    requires Assignment(after[1..]) == Ok(Parsed(alternate, rest))
    ensures Ternary(toks) == Ok(Parsed(ConditionalExpression(test, consequent, alternate), rest))
  {
  }

  // ---------------------------------------------------------------------------
  // The binary levels

  lemma BinaryLevelFromOperand(k: nat, toks: seq<Token>, n: Node, rest: seq<Token>)
    requires k <= MultiplicativeLevel && Operand(k, toks) == Ok(Parsed(n, rest))
    ensures BinaryLevel(k, toks) == LevelTail(k, n, rest)
  {
  }

  lemma LevelTailStop(k: nat, n: Node, rest: seq<Token>)
    requires k <= MultiplicativeLevel && !NextIn(rest, LevelOperators(k))
    ensures LevelTail(k, n, rest) == Ok(Parsed(n, rest))
  {
  }

  lemma LevelTailStep(k: nat, left: Node, toks: seq<Token>, right: Node, rest: seq<Token>)
    requires k <= MultiplicativeLevel && NextIn(toks, LevelOperators(k))
    requires Operand(k, toks[1..]) == Ok(Parsed(right, rest))
    ensures LevelTail(k, left, toks) == LevelTail(k, Combine(k, left, toks[0].text, right), rest)
  {
  }

  // ---------------------------------------------------------------------------
  // unary

  lemma UnaryStep(toks: seq<Token>, argument: Node, rest: seq<Token>)
    requires NextIn(toks, {"+", "!", "-"}) && Unary(toks[1..]) == Ok(Parsed(argument, rest))
    ensures Unary(toks) == Ok(Parsed(UnaryExpression(toks[0].text, argument), rest))
  {
  }

  lemma UnaryFromPrimary(toks: seq<Token>)
    requires !NextIn(toks, {"+", "!", "-"})
    ensures Unary(toks) == Primary(toks)
  {
  }

  // ---------------------------------------------------------------------------
  // primary

  lemma ParenthesisedStep(toks: seq<Token>, n: Node, after: seq<Token>)
    requires NextIs(toks, "(") && Assignment(toks[1..]) == Ok(Parsed(n, after)) && NextIs(after, ")")
    ensures Primary(toks) == PrimaryTail(n, after[1..])
  {
  }

  /** A single keyword, identifier or literal token. */
  lemma LeafStep(toks: seq<Token>)
    requires |toks| > 0 && toks[0].text !in {"(", "[", "{"}
    ensures Primary(toks)
         == PrimaryTail(if toks[0].text in Constants then ConstantNode(toks[0].text) else KeyNode(toks[0]), toks[1..])
  {
  }

  lemma ArrayStep(toks: seq<Token>, elements: seq<Node>, after: seq<Token>)
    requires NextIs(toks, "[") && ArrayElements(toks[1..]) == Ok(Parsed(elements, after)) && NextIs(after, "]")
    ensures Primary(toks) == PrimaryTail(ArrayExpression(elements), after[1..])
  {
  }

  lemma ObjectStep(toks: seq<Token>, properties: seq<Property>, rest: seq<Token>)
    requires NextIs(toks, "{") && ObjectDeclaration(toks[1..]) == Ok(Parsed(ObjectExpression(properties), rest))
    ensures Primary(toks) == PrimaryTail(ObjectExpression(properties), rest)
  {
  }

  lemma ComputedMemberStep(target: Node, toks: seq<Token>, key: Node, after: seq<Token>)
    requires NextIs(toks, "[") && Primary(toks[1..]) == Ok(Parsed(key, after)) && NextIs(after, "]")
    ensures PrimaryTail(target, toks) == PrimaryTail(MemberExpression(target, key, true), after[1..])
  {
  }

  lemma DotMemberStep(target: Node, toks: seq<Token>)
    requires NextIs(toks, ".") && |toks| > 1
    ensures PrimaryTail(target, toks) == PrimaryTail(MemberExpression(target, Identifier(toks[1].text), false), toks[2..])
  {
    assert toks[1..][1..] == toks[2..];
  }

  lemma CallStep(callee: Node, toks: seq<Token>, arguments: seq<Node>, after: seq<Token>)
    requires NextIs(toks, "(") && ParseArguments(toks[1..]) == Ok(Parsed(arguments, after)) && NextIs(after, ")")
    ensures PrimaryTail(callee, toks) == PrimaryTail(CallExpression(callee, arguments), after[1..])
  {
  }

  lemma PrimaryTailStop(n: Node, rest: seq<Token>)
    requires !NextIs(rest, "[") && !NextIs(rest, ".") && !NextIs(rest, "(")
    ensures PrimaryTail(n, rest) == Ok(Parsed(n, rest))
  {
  }

  // ---------------------------------------------------------------------------
  // Lists

  lemma ElementsEmpty(toks: seq<Token>)
    requires NextIs(toks, "]")
    ensures ArrayElements(toks) == Ok(Parsed([], toks))
  {
  }

  lemma ElementsLast(toks: seq<Token>, element: Node, rest: seq<Token>)
    requires !NextIs(toks, "]") && Assignment(toks) == Ok(Parsed(element, rest)) && !NextIs(rest, ",")
    ensures ArrayElements(toks) == Ok(Parsed([element], rest))
  {
  }

  lemma ElementsCons(toks: seq<Token>, element: Node, mid: seq<Token>, more: seq<Node>, rest: seq<Token>)
    requires !NextIs(toks, "]") && Assignment(toks) == Ok(Parsed(element, mid)) && NextIs(mid, ",")
    requires ArrayElements(mid[1..]) == Ok(Parsed(more, rest))
    ensures ArrayElements(toks) == Ok(Parsed([element] + more, rest))
  {
  }

  lemma ArgumentsEmpty(toks: seq<Token>)
    requires NextIs(toks, ")")
    ensures ParseArguments(toks) == Ok(Parsed([], toks))
  {
  }

  lemma ArgumentsNonEmpty(toks: seq<Token>)
    requires !NextIs(toks, ")")
    ensures ParseArguments(toks) == ArgumentList(toks)
  {
  }

  lemma ArgumentsLast(toks: seq<Token>, argument: Node, rest: seq<Token>)
    requires Assignment(toks) == Ok(Parsed(argument, rest)) && !NextIs(rest, ",")
    ensures ArgumentList(toks) == Ok(Parsed([argument], rest))
  {
  }

  lemma ArgumentsCons(toks: seq<Token>, argument: Node, mid: seq<Token>, more: seq<Node>, rest: seq<Token>)
    requires Assignment(toks) == Ok(Parsed(argument, mid)) && NextIs(mid, ",")
    requires ArgumentList(mid[1..]) == Ok(Parsed(more, rest))
    ensures ArgumentList(toks) == Ok(Parsed([argument] + more, rest))
  {
  }

  lemma ObjectEmpty(toks: seq<Token>)
    requires NextIs(toks, "}")
    ensures ObjectDeclaration(toks) == Ok(Parsed(ObjectExpression([]), toks[1..]))
  {
  }

  lemma ObjectNonEmpty(toks: seq<Token>, properties: seq<Property>, after: seq<Token>)
    requires !NextIs(toks, "}") && PropertyList(toks) == Ok(Parsed(properties, after)) && NextIs(after, "}")
    ensures ObjectDeclaration(toks) == Ok(Parsed(ObjectExpression(properties), after[1..]))
  {
  }

  lemma PropertiesLast(toks: seq<Token>, value: Node, rest: seq<Token>)
    requires |toks| > 1 && toks[1].text == ":"
    requires Assignment(toks[2..]) == Ok(Parsed(value, rest)) && !NextIs(rest, ",")
    ensures PropertyList(toks) == Ok(Parsed([Property(KeyNode(toks[0]), value)], rest))
  {
    assert toks[1..][1..] == toks[2..];
  }

  lemma PropertiesCons(toks: seq<Token>, value: Node, mid: seq<Token>, more: seq<Property>, rest: seq<Token>)
    requires |toks| > 1 && toks[1].text == ":"
    requires Assignment(toks[2..]) == Ok(Parsed(value, mid)) && NextIs(mid, ",")
    requires PropertyList(mid[1..]) == Ok(Parsed(more, rest))
    ensures PropertyList(toks) == Ok(Parsed([Property(KeyNode(toks[0]), value)] + more, rest))
  {
    assert toks[1..][1..] == toks[2..];
  }

  // ---------------------------------------------------------------------------
  // Errors inside an object literal

  lemma PropertiesMissingColon(toks: seq<Token>)
    requires |toks| > 0 && !NextIs(toks[1..], ":")
    ensures PropertyList(toks) == Err(UnexpectedToken(":"))
  {
  }

  lemma PropertiesConsError(toks: seq<Token>, value: Node, mid: seq<Token>)
    requires |toks| > 1 && toks[1].text == ":"
    requires Assignment(toks[2..]) == Ok(Parsed(value, mid)) && NextIs(mid, ",")
    requires PropertyList(mid[1..]).Err?
    ensures PropertyList(toks) == Err(PropertyList(mid[1..]).error)
  {
    assert toks[1..][1..] == toks[2..];
  }

  lemma ObjectError(toks: seq<Token>)
    requires NextIs(toks, "{") && !NextIs(toks[1..], "}") && PropertyList(toks[1..]).Err?
    ensures Primary(toks) == Err(PropertyList(toks[1..]).error)
  {
  }
}
