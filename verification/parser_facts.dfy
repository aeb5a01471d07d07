/**
 * What the parser makes of a few short token sequences: how operators of
 * equal and of different precedence group, how prefix operators nest, and
 * the places where the grammar accepts or rejects more than its surface
 * syntax suggests.
 */
module ParserFacts {
  import opened Wrappers
  import opened CharClass
  import opened Lexer
  import opened Parser
  import opened ParserSteps
  import opened ParserProps

  function IdentToken(name: string): Token {
    Token(name, NoValue, true)
  }

  /** A name the lexer reads as an identifier and `primary` does not take for a keyword. */
  predicate IsName(name: string) {
    IsIdentifierText(name) && name !in Constants
  }

  /** How a node built by `Combine` renders. */
  lemma CombineRendering(k: nat, left: Node, op: string, right: Node)
    requires BinaryLevelOf(op) == k
    ensures Level(Combine(k, left, op, right)) == 2 + k
    ensures Render(Combine(k, left, op, right)) == RenderAt(2 + k, left) + [Tok(op)] + RenderAt(3 + k, right)
  {
    if k <= LogicalAndLevel {
      var n := LogicalExpression(left, op, right);
      assert Level(n) == 2 + k;
    } else {
      var n := BinaryExpression(left, op, right);
      assert Level(n) == 2 + k;
    }
  }

  lemma IdentifierRendering(m: nat, a: string)
    requires m <= 9
    ensures RenderAt(m, Identifier(a)) == [IdentToken(a)]
  {
  }

  lemma WFCombine(k: nat, left: Node, op: string, right: Node)
    requires BinaryLevelOf(op) == k && WF(left) && WF(right)
    ensures WF(Combine(k, left, op, right))
  {
    if k <= LogicalAndLevel {
      assert WF(LogicalExpression(left, op, right));
    } else {
      assert WF(BinaryExpression(left, op, right));
    }
  }

  lemma GroupLeft5<T>(x1: T, x2: T, x3: T, x4: T, x5: T)
    ensures [x1] + [x2] + [x3] + [x4] + [x5] == [x1, x2, x3, x4, x5]
  {
  }

  lemma GroupRight5<T>(x1: T, x2: T, x3: T, x4: T, x5: T)
    ensures [x1] + [x2] + ([x3] + [x4] + [x5]) == [x1, x2, x3, x4, x5]
  {
  }

  lemma GroupLeft4<T>(x1: T, x2: T, x3: T, x4: T)
    ensures [x1] + [x2] + [x3] + [x4] == [x1, x2, x3, x4]
  {
  }

  /** Two operators of one level group to the left: `a - b - c` is `(a - b) - c`. */
  lemma SameLevelGroupsLeft(a: string, op1: string, b: string, op2: string, c: string)
    requires IsName(a) && IsName(b) && IsName(c)
    requires BinaryLevelOf(op1) >= 0 && BinaryLevelOf(op2) == BinaryLevelOf(op1)
    ensures var k := BinaryLevelOf(op1);
      ProgramOf([IdentToken(a), Tok(op1), IdentToken(b), Tok(op2), IdentToken(c)])
      == Ok(Program(Combine(k, Combine(k, Identifier(a), op1, Identifier(b)), op2, Identifier(c))))
  {
    var k := BinaryLevelOf(op1);
    var inner := Combine(k, Identifier(a), op1, Identifier(b));
    var n := Combine(k, inner, op2, Identifier(c));
    IdentifierRendering(2 + k, a);
    IdentifierRendering(3 + k, b);
    IdentifierRendering(3 + k, c);
    CombineRendering(k, Identifier(a), op1, Identifier(b));
    CombineRendering(k, inner, op2, Identifier(c));
    assert RenderAt(2 + k, inner) == Render(inner);
    WFCombine(k, Identifier(a), op1, Identifier(b));
    WFCombine(k, inner, op2, Identifier(c));
    RenderThenParse(n);
    GroupLeft5(IdentToken(a), Tok(op1), IdentToken(b), Tok(op2), IdentToken(c));
  }

  /** The tighter operator takes the middle operand when it comes second: `a + b * c` is `a + (b * c)`. */
  lemma TighterSecondGroupsRight(a: string, op1: string, b: string, op2: string, c: string)
    requires IsName(a) && IsName(b) && IsName(c)
    requires 0 <= BinaryLevelOf(op1) < BinaryLevelOf(op2)
    ensures var k1, k2 := BinaryLevelOf(op1), BinaryLevelOf(op2);
      ProgramOf([IdentToken(a), Tok(op1), IdentToken(b), Tok(op2), IdentToken(c)])
      == Ok(Program(Combine(k1, Identifier(a), op1, Combine(k2, Identifier(b), op2, Identifier(c)))))
  {
    var k1, k2 := BinaryLevelOf(op1), BinaryLevelOf(op2);
    var inner := Combine(k2, Identifier(b), op2, Identifier(c));
    var n := Combine(k1, Identifier(a), op1, inner);
    IdentifierRendering(2 + k1, a);
    IdentifierRendering(2 + k2, b);
    IdentifierRendering(3 + k2, c);
    CombineRendering(k2, Identifier(b), op2, Identifier(c));
    CombineRendering(k1, Identifier(a), op1, inner);
    assert RenderAt(3 + k1, inner) == Render(inner);
    WFCombine(k2, Identifier(b), op2, Identifier(c));
    WFCombine(k1, Identifier(a), op1, inner);
    RenderThenParse(n);
    GroupRight5(IdentToken(a), Tok(op1), IdentToken(b), Tok(op2), IdentToken(c));
  }

  /** The tighter operator takes the middle operand when it comes first: `a * b + c` is `(a * b) + c`. */
  lemma TighterFirstGroupsLeft(a: string, op1: string, b: string, op2: string, c: string)
    requires IsName(a) && IsName(b) && IsName(c)
    requires 0 <= BinaryLevelOf(op2) < BinaryLevelOf(op1)
    ensures var k1, k2 := BinaryLevelOf(op1), BinaryLevelOf(op2);
      ProgramOf([IdentToken(a), Tok(op1), IdentToken(b), Tok(op2), IdentToken(c)])
      == Ok(Program(Combine(k2, Combine(k1, Identifier(a), op1, Identifier(b)), op2, Identifier(c))))
  {
    var k1, k2 := BinaryLevelOf(op1), BinaryLevelOf(op2);
    var inner := Combine(k1, Identifier(a), op1, Identifier(b));
    var n := Combine(k2, inner, op2, Identifier(c));
    IdentifierRendering(2 + k1, a);
    IdentifierRendering(3 + k1, b);
    IdentifierRendering(3 + k2, c);
    CombineRendering(k1, Identifier(a), op1, Identifier(b));
    CombineRendering(k2, inner, op2, Identifier(c));
    assert RenderAt(2 + k2, inner) == Render(inner);
    WFCombine(k1, Identifier(a), op1, Identifier(b));
    WFCombine(k2, inner, op2, Identifier(c));
    RenderThenParse(n);
    GroupLeft5(IdentToken(a), Tok(op1), IdentToken(b), Tok(op2), IdentToken(c));
  }

  /** A prefix operator binds tighter than any binary one: `-a * b` is `(-a) * b`. */
  lemma PrefixBindsTighter(u: string, a: string, op: string, b: string)
    requires IsName(a) && IsName(b) && u in {"+", "!", "-"} && BinaryLevelOf(op) >= 0
    ensures var k := BinaryLevelOf(op);
      ProgramOf([Tok(u), IdentToken(a), Tok(op), IdentToken(b)])
      == Ok(Program(Combine(k, UnaryExpression(u, Identifier(a)), op, Identifier(b))))
  {
    var k := BinaryLevelOf(op);
    var left := UnaryExpression(u, Identifier(a));
    var n := Combine(k, left, op, Identifier(b));
    IdentifierRendering(8, a);
    IdentifierRendering(3 + k, b);
    assert Render(left) == [Tok(u)] + [IdentToken(a)];
    CombineRendering(k, left, op, Identifier(b));
    assert RenderAt(2 + k, left) == Render(left);
    WFCombine(k, left, op, Identifier(b));
    RenderThenParse(n);
    GroupLeft4(Tok(u), IdentToken(a), Tok(op), IdentToken(b));
  }

  /** Prefix operators nest to the right: `!-a` is `!(-a)`. */
  lemma PrefixesNest(u1: string, u2: string, a: string)
    requires IsName(a) && u1 in {"+", "!", "-"} && u2 in {"+", "!", "-"}
    ensures ProgramOf([Tok(u1), Tok(u2), IdentToken(a)])
         == Ok(Program(UnaryExpression(u1, UnaryExpression(u2, Identifier(a)))))
  {
    var inner := UnaryExpression(u2, Identifier(a));
    var n := UnaryExpression(u1, inner);
    IdentifierRendering(8, a);
    assert Render(inner) == [Tok(u2), IdentToken(a)];
    assert RenderAt(8, inner) == Render(inner);
    assert Render(n) == [Tok(u1)] + [Tok(u2), IdentToken(a)];
    RenderThenParse(n);
    assert Render(n) == [Tok(u1), Tok(u2), IdentToken(a)];
  }

  // ---------------------------------------------------------------------------
  // Where the grammar is looser or stricter than it looks

  lemma Flatten3<T>(x1: T, x2: T, x3: T)
    ensures [x1] + ([x2] + [x3]) == [x1, x2, x3]
  {
  }

  lemma Flatten4<T>(x1: T, x2: T, x3: T, x4: T)
    ensures [x1] + ([x2] + ([x3] + [x4])) == [x1, x2, x3, x4]
  {
  }

  lemma Flatten5<T>(x1: T, x2: T, x3: T, x4: T, x5: T)
    ensures [x1] + ([x2] + ([x3] + [x4, x5])) == [x1, x2, x3, x4, x5]
  {
  }

  lemma Flatten6<T>(x1: T, x2: T, x3: T, x4: T, x5: T, x6: T)
    ensures [x1] + ([x2, x3] + ([x4] + ([x5] + [x6]))) == [x1, x2, x3, x4, x5, x6]
  {
  }

  lemma NameIsNoBracket(a: string)
    requires IsName(a)
    ensures a != "]" && a != "}"
  {
    assert IsIdentStart(a[0]);
  }

  lemma OpenerIsNoPrefix(t: Token, rest: seq<Token>)
    requires t.text in {"[", "{"}
    ensures !NextIn([t] + rest, {"+", "!", "-"})
  {
  }

  /** A lone name, followed by nothing a binary level or `?` continues with, is a ternary. */
  lemma NameAsTernary(a: string, rest: seq<Token>)
    requires IsName(a) && Stops(2, rest) && !NextIs(rest, "?")
    ensures Ternary([IdentToken(a)] + rest) == Ok(Parsed(Identifier(a), rest))
  {
    IdentifierRendering(2, a);
    BinaryRoundTrip(LogicalOrLevel, Identifier(a), rest);
    TernaryFromLogicalOr([IdentToken(a)] + rest, Identifier(a), rest);
  }

  /** A lone name, followed by nothing an expression continues with, is an assignment-level expression. */
  lemma NameAsAssignment(a: string, rest: seq<Token>)
    requires IsName(a) && Stops(1, rest)
    ensures Assignment([IdentToken(a)] + rest) == Ok(Parsed(Identifier(a), rest))
  {
    NameAsTernary(a, rest);
    AssignmentFromTernary([IdentToken(a)] + rest, Identifier(a), rest);
  }

  /** A primary that no operator follows passes unchanged through every binary level. */
  lemma {:induction false} LiftUnary(k: nat, toks: seq<Token>, n: Node, rest: seq<Token>)
    requires k <= MultiplicativeLevel && Unary(toks) == Ok(Parsed(n, rest)) && Stops(0, rest)
    ensures BinaryLevel(k, toks) == Ok(Parsed(n, rest))
    decreases MultiplicativeLevel - k
  {
    if k < MultiplicativeLevel {
      LiftUnary(k + 1, toks, n, rest);
    }
    BinaryLevelFromOperand(k, toks, n, rest);
    LevelTailStop(k, n, rest);
  }

  lemma LiftPrimary(toks: seq<Token>, n: Node, rest: seq<Token>)
    requires !NextIn(toks, {"+", "!", "-"}) && Primary(toks) == Ok(Parsed(n, rest)) && Stops(0, rest)
    ensures Assignment(toks) == Ok(Parsed(n, rest))
  {
    UnaryFromPrimary(toks);
    LiftUnary(LogicalOrLevel, toks, n, rest);
    TernaryFromLogicalOr(toks, n, rest);
    AssignmentFromTernary(toks, n, rest);
  }

  /** An error in a primary is the error of the whole expression. */
  lemma {:induction false} LiftUnaryError(k: nat, toks: seq<Token>)
    requires k <= MultiplicativeLevel && Unary(toks).Err?
    ensures BinaryLevel(k, toks) == Err(Unary(toks).error)
    decreases MultiplicativeLevel - k
  {
    if k < MultiplicativeLevel {
      LiftUnaryError(k + 1, toks);
    }
  }

  lemma LiftPrimaryError(toks: seq<Token>)
    requires !NextIn(toks, {"+", "!", "-"}) && Primary(toks).Err?
    ensures ProgramOf(toks) == Err(Primary(toks).error)
  {
    UnaryFromPrimary(toks);
    LiftUnaryError(LogicalOrLevel, toks);
    assert Ternary(toks) == Err(Primary(toks).error);
    assert Assignment(toks) == Err(Primary(toks).error);
  }

  /**
   * `program` does not look past the expression it reads: whatever follows a
   * complete expression, when no operator could continue it, is dropped.
   */
  lemma TrailingTokensIgnored(n: Node, rest: seq<Token>)
    requires WF(n) && Stops(0, rest)
    ensures ProgramOf(Render(n) + rest) == Ok(Program(n))
  {
    AssignmentRoundTrip(n, rest);
  }

  /** `a = b = c` reads as `a = b`: the right side of `=` is a ternary, and the rest is dropped. */
  lemma ChainedAssignmentKeepsFirst(a: string, b: string, c: string)
    requires IsName(a) && IsName(b) && IsName(c)
    ensures ProgramOf([IdentToken(a), Tok("="), IdentToken(b), Tok("="), IdentToken(c)])
         == Ok(Program(AssignmentExpression(Identifier(a), Identifier(b))))
  {
    var tail := [Tok("="), IdentToken(c)];
    var mid := [Tok("=")] + ([IdentToken(b)] + tail);
    var toks := [IdentToken(a)] + mid;
    NameAsTernary(a, mid);
    DropHead(Tok("="), [IdentToken(b)] + tail);
    NameAsTernary(b, tail);
    AssignmentStep(toks, Identifier(a), mid, Identifier(b), tail);
    Flatten5(IdentToken(a), Tok("="), IdentToken(b), Tok("="), IdentToken(c));
  }

  /** `a ? b` without `: c` is rejected: `ternary` consumes the `:` it expects. */
  lemma TernaryNeedsAlternative(a: string, b: string)
    requires IsName(a) && IsName(b)
    ensures ProgramOf([IdentToken(a), Tok("?"), IdentToken(b)]) == Err(UnexpectedToken(":"))
  {
    var mid := [Tok("?")] + [IdentToken(b)];
    var toks := [IdentToken(a)] + mid;
    IdentifierRendering(2, a);
    BinaryRoundTrip(LogicalOrLevel, Identifier(a), mid);
    DropHead(Tok("?"), [IdentToken(b)]);
    EmptyPrefix([IdentToken(b)]);
    NameAsAssignment(b, []);
    assert Ternary(toks) == Err(UnexpectedToken(":"));
    Flatten3(IdentToken(a), Tok("?"), IdentToken(b));
  }

  /** `[a,]` is the one-element array: `arrayDeclaration` stops at a `]` after a comma. */
  lemma ArrayTrailingCommaAccepted(a: string)
    requires IsName(a)
    ensures ProgramOf([Tok("["), IdentToken(a), Tok(","), Tok("]")])
         == Ok(Program(ArrayExpression([Identifier(a)])))
  {
    var close := [Tok("]")];
    var mid := [Tok(",")] + close;
    var inner := [IdentToken(a)] + mid;
    var toks := [Tok("[")] + inner;
    NameAsAssignment(a, mid);
    NameIsNoBracket(a);
    ElementsEmpty(close);
    DropHead(Tok(","), close);
    ElementsCons(inner, Identifier(a), mid, [], close);
    EmptyPrefix([Identifier(a)]);
    DropHead(Tok("["), inner);
    ArrayStep(toks, [Identifier(a)], close);
    DropHead(Tok("]"), []);
    assert close[1..] == [];
    PrimaryTailStop(ArrayExpression([Identifier(a)]), []);
    OpenerIsNoPrefix(Tok("["), inner);
    LiftPrimary(toks, ArrayExpression([Identifier(a)]), []);
    Flatten4(Tok("["), IdentToken(a), Tok(","), Tok("]"));
  }

  /**
   * `{a: b,}` is rejected: after the comma `objectDeclaration` reads `}` as the
   * next key and then fails to find its `:`.
   */
  lemma ObjectTrailingCommaRejected(a: string, b: string)
    requires IsName(a) && IsName(b)
    ensures ProgramOf([Tok("{"), IdentToken(a), Tok(":"), IdentToken(b), Tok(","), Tok("}")])
         == Err(UnexpectedToken(":"))
  {
    var close := [Tok("}")];
    var mid := [Tok(",")] + close;
    var properties := [IdentToken(a), Tok(":")] + ([IdentToken(b)] + mid);
    var toks := [Tok("{")] + properties;
    DropPair(IdentToken(a), Tok(":"), [IdentToken(b)] + mid);
    NameAsAssignment(b, mid);
    DropHead(Tok(","), close);
    DropHead(Tok("}"), []);
    PropertiesMissingColon(close);
    PropertiesConsError(properties, Identifier(b), mid);
    DropHead(Tok("{"), properties);
    OpenerIsNoPrefix(Tok("{"), properties);
    NameIsNoBracket(a);
    ObjectError(toks);
    LiftPrimaryError(toks);
    Flatten6(Tok("{"), IdentToken(a), Tok(":"), IdentToken(b), Tok(","), Tok("}"));
  }
}
