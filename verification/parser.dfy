/**
 * The recursive-descent AST builder (`AST` in src/parse.js). Every parsing
 * function takes the remaining tokens and returns the node it built together
 * with the tokens it left, or the error it threw. Tokens are matched by their
 * text only, as `peek` does.
 */
module Parser {
  import opened Wrappers
  import opened Lexer

  /** The value of a `Literal` node: whatever `value` the consumed token carried. */
  datatype LiteralValue =
    | UndefinedLiteral
    | NullLiteral
    | BoolLiteral(b: bool)
    | NumberLiteral(text: string)
    | StringLiteral(s: string)

  datatype Node =
    | Program(body: Node)
    | Literal(value: LiteralValue)
    | ArrayExpression(elements: seq<Node>)
    | ObjectExpression(properties: seq<Property>)
    | Identifier(name: string)
    | ThisExpression
    | MemberExpression(target: Node, property: Node, computed: bool)  // `target` is the tree's `object` field
    | CallExpression(callee: Node, arguments: seq<Node>)
    | AssignmentExpression(left: Node, right: Node)
    | UnaryExpression(operator: string, argument: Node)
    | BinaryExpression(left: Node, operator: string, right: Node)
    | LogicalExpression(left: Node, operator: string, right: Node)
    | ConditionalExpression(test: Node, consequent: Node, alternate: Node)

  datatype Property = Property(key: Node, value: Node)

  /**
   * `UnexpectedToken(e)` is `consume(e)` failing ("Unexpected token. Expecting: e";
   * a `consume()` without argument reports "undefined"); `NoTokenToInspect` is
   * the host's TypeError when `primary` or an object literal reads the front
   * token of an empty list.
   */
  datatype ParseError = UnexpectedToken(expecting: string) | NoTokenToInspect

  datatype SyntaxError = LexicalError(lexical: LexError) | GrammarError(grammar: ParseError)

  datatype Parsed<T> = Parsed(node: T, rest: seq<Token>)

  /** At least one token of `toks` was read, leaving `rest`: what keeps the recursive descent finite. */
  predicate Consumed(toks: seq<Token>, rest: seq<Token>) {
    |rest| < |toks|
  }

  /** Zero or more tokens of `toks` were read, leaving `rest`. */
  predicate NoLonger(rest: seq<Token>, toks: seq<Token>) {
    |rest| <= |toks|
  }

  // ---------------------------------------------------------------------------
  // Token access: `peek`, `expect` and `consume`

  predicate NextIs(toks: seq<Token>, text: string) {
    |toks| > 0 && toks[0].text == text
  }

  predicate NextIn(toks: seq<Token>, texts: set<string>) {
    |toks| > 0 && toks[0].text in texts
  }

  /** `consume(e)`: take the front token if its text is `e`, otherwise throw. */
  function Consume(toks: seq<Token>, e: string): (r: Result<seq<Token>, ParseError>)
    ensures r.Ok? <==> NextIs(toks, e)
    ensures r.Ok? ==> [toks[0]] + r.value == toks
    ensures r.Err? ==> r.error == UnexpectedToken(e)
  {
    if NextIs(toks, e) then Ok(toks[1..]) else Err(UnexpectedToken(e))
  }

  /** `consume()` with no argument: take whatever token is in front. */
  function ConsumeAny(toks: seq<Token>): (r: Result<Parsed<Token>, ParseError>)
    ensures r.Ok? <==> |toks| > 0
    ensures r.Ok? ==> [r.value.node] + r.value.rest == toks
    ensures r.Err? ==> r.error == UnexpectedToken("undefined")
  {
    if |toks| > 0 then Ok(Parsed(toks[0], toks[1..])) else Err(UnexpectedToken("undefined"))
  }

  // ---------------------------------------------------------------------------
  // Leaves

  const Constants: set<string> := {"null", "true", "false", "this"}

  /** The nodes `primary` uses for the four keywords. */
  function ConstantNode(text: string): Node
    requires text in Constants
  {
    match text
    case "null" => Literal(NullLiteral)
    case "true" => Literal(BoolLiteral(true))
    case "false" => Literal(BoolLiteral(false))
    case _ => ThisExpression
  }

  /** The value `constant()` reads from a token: none for punctuation, operators and identifiers. */
  function LiteralOf(v: TokenValue): LiteralValue {
    match v
    case NoValue => UndefinedLiteral
    case NumberText(text) => NumberLiteral(text)
    case StringValue(s) => StringLiteral(s)
  }

  /** The node `constant()` or `identifier()` builds from a token, depending on its identifier flag. */
  function KeyNode(t: Token): Node {
    if t.identifier then Identifier(t.text) else Literal(LiteralOf(t.value))
  }

  // ---------------------------------------------------------------------------
  // Binary levels, lowest precedence first

  const LogicalOrLevel: nat := 0
  const LogicalAndLevel: nat := 1
  const EqualityLevel: nat := 2
  const RelationalLevel: nat := 3
  const AdditiveLevel: nat := 4
  const MultiplicativeLevel: nat := 5

  /** The operators `logicalOR`, `logicalAND`, `equality`, `relational`, `additive` and `multiplicative` expect. */
  function LevelOperators(k: nat): set<string>
    requires k <= MultiplicativeLevel
  {
    if k == LogicalOrLevel then {"||"}
    else if k == LogicalAndLevel then {"&&"}
    else if k == EqualityLevel then {"==", "!=", "===", "!=="}
    else if k == RelationalLevel then {"<", ">", "<=", ">="}
    else if k == AdditiveLevel then {"+", "-"}
    else {"*", "/", "%"}
  }

  /** `||` and `&&` build logical nodes; every other level builds binary nodes. */
  function Combine(k: nat, left: Node, op: string, right: Node): Node {
    if k <= LogicalAndLevel then LogicalExpression(left, op, right) else BinaryExpression(left, op, right)
  }

  // ---------------------------------------------------------------------------
  // The grammar

  /** `program`: one assignment; whatever tokens follow it are ignored. */
  function ProgramOf(toks: seq<Token>): (r: Result<Node, ParseError>)
    ensures r.Ok? ==> r.value.Program?
  {
    var body :- Assignment(toks);
    Ok(Program(body.node))
  }

  /** `assignment`: a ternary, optionally followed by `=` and another ternary. */
  function Assignment(toks: seq<Token>): (r: Result<Parsed<Node>, ParseError>)
    ensures r.Ok? ==> Consumed(toks, r.value.rest)
    decreases |toks|, 12
  {
    var left :- Ternary(toks);
    if NextIs(left.rest, "=") then
      var right :- Ternary(left.rest[1..]);
      Ok(Parsed(AssignmentExpression(left.node, right.node), right.rest))
    else
      Ok(left)
  }

  /** `ternary`: a logical OR, optionally followed by `? assignment : assignment`. */
  function Ternary(toks: seq<Token>): (r: Result<Parsed<Node>, ParseError>)
    ensures r.Ok? ==> Consumed(toks, r.value.rest)
    decreases |toks|, 11
  {
    var test :- BinaryLevel(LogicalOrLevel, toks);
    if NextIs(test.rest, "?") then
      var consequent :- Assignment(test.rest[1..]);
      var rest :- Consume(consequent.rest, ":");
      var alternate :- Assignment(rest);
      Ok(Parsed(ConditionalExpression(test.node, consequent.node, alternate.node), alternate.rest))
    else
      Ok(test)
  }

  /** The operand of level `k`: the next level up, or `unary` above multiplication. */
  function Operand(k: nat, toks: seq<Token>): (r: Result<Parsed<Node>, ParseError>)
    requires k <= MultiplicativeLevel
    ensures r.Ok? ==> Consumed(toks, r.value.rest)
    decreases |toks|, 10 - k, 1
  {
    if k == MultiplicativeLevel then Unary(toks) else BinaryLevel(k + 1, toks)
  }

  /** One binary level: an operand followed by any number of `operator operand` pairs. */
  function BinaryLevel(k: nat, toks: seq<Token>): (r: Result<Parsed<Node>, ParseError>)
    requires k <= MultiplicativeLevel
    ensures r.Ok? ==> Consumed(toks, r.value.rest)
    decreases |toks|, 10 - k, 2
  {
    var left :- Operand(k, toks);
    LevelTail(k, left.node, left.rest)
  }

  /** The loop of a binary level: each operator wraps everything parsed so far as its left side. */
  function LevelTail(k: nat, left: Node, toks: seq<Token>): (r: Result<Parsed<Node>, ParseError>)
    requires k <= MultiplicativeLevel
    ensures r.Ok? ==> NoLonger(r.value.rest, toks)
    decreases |toks|, 0
  {
    if NextIn(toks, LevelOperators(k)) then
      var right :- Operand(k, toks[1..]);
      LevelTail(k, Combine(k, left, toks[0].text, right.node), right.rest)
    else
      Ok(Parsed(left, toks))
  }

  /** `unary`: a prefix `+`, `!` or `-` applied to a unary, or a primary. */
  function Unary(toks: seq<Token>): (r: Result<Parsed<Node>, ParseError>)
    ensures r.Ok? ==> Consumed(toks, r.value.rest)
    decreases |toks|, 4
  {
    if NextIn(toks, {"+", "!", "-"}) then
      var argument :- Unary(toks[1..]);
      Ok(Parsed(UnaryExpression(toks[0].text, argument.node), argument.rest))
    else
      Primary(toks)
  }

  /**
   * `primary`: a parenthesised assignment, an array or object literal, a
   * keyword, an identifier or a literal, then any member accesses and calls.
   */
  function Primary(toks: seq<Token>): (r: Result<Parsed<Node>, ParseError>)
    ensures r.Ok? ==> Consumed(toks, r.value.rest)
    decreases |toks|, 3
  {
    if NextIs(toks, "(") then
      var inner :- Assignment(toks[1..]);
      var rest :- Consume(inner.rest, ")");
      PrimaryTail(inner.node, rest)
    else if NextIs(toks, "[") then
      var arrayNode :- ArrayDeclaration(toks[1..]);
      PrimaryTail(arrayNode.node, arrayNode.rest)
    else if NextIs(toks, "{") then
      var objectNode :- ObjectDeclaration(toks[1..]);
      PrimaryTail(objectNode.node, objectNode.rest)
    else if |toks| == 0 then
      Err(NoTokenToInspect)
    else if toks[0].text in Constants then
      PrimaryTail(ConstantNode(toks[0].text), toks[1..])
    else
      PrimaryTail(KeyNode(toks[0]), toks[1..])
  }

  /**
   * The loop of `primary`: `[` reads a computed member whose key is a primary,
   * `.` reads a member named by whatever token follows, `(` reads a call.
   */
  function PrimaryTail(node: Node, toks: seq<Token>): (r: Result<Parsed<Node>, ParseError>)
    ensures r.Ok? ==> NoLonger(r.value.rest, toks)
    decreases |toks|, 0
  {
    if NextIs(toks, "[") then
      var property :- Primary(toks[1..]);
      var rest :- Consume(property.rest, "]");
      PrimaryTail(MemberExpression(node, property.node, true), rest)
    else if NextIs(toks, ".") then
      var name :- ConsumeAny(toks[1..]);
      PrimaryTail(MemberExpression(node, Identifier(name.node.text), false), name.rest)
    else if NextIs(toks, "(") then
      var args :- ParseArguments(toks[1..]);
      var rest :- Consume(args.rest, ")");
      PrimaryTail(CallExpression(node, args.node), rest)
    else
      Ok(Parsed(node, toks))
  }

  /** `arrayDeclaration`, after the `[`: elements up to the closing `]`. */
  function ArrayDeclaration(toks: seq<Token>): (r: Result<Parsed<Node>, ParseError>)
    ensures r.Ok? ==> Consumed(toks, r.value.rest) && r.value.node.ArrayExpression?
    decreases |toks|, 14
  {
    var elements :- ArrayElements(toks);
    var rest :- Consume(elements.rest, "]");
    Ok(Parsed(ArrayExpression(elements.node), rest))
  }

  /** The `do … while (expect(','))` loop of `arrayDeclaration`; a `]` ends it, so a trailing comma is allowed. */
  function ArrayElements(toks: seq<Token>): (r: Result<Parsed<seq<Node>>, ParseError>)
    ensures r.Ok? ==> NoLonger(r.value.rest, toks)
    decreases |toks|, 13
  {
    if NextIs(toks, "]") then
      Ok(Parsed([], toks))
    else
      var element :- Assignment(toks);
      if NextIs(element.rest, ",") then
        var more :- ArrayElements(element.rest[1..]);
        Ok(Parsed([element.node] + more.node, more.rest))
      else
        Ok(Parsed([element.node], element.rest))
  }

  /** `objectDeclaration`, after the `{`: `key: value` pairs up to the closing `}`. */
  function ObjectDeclaration(toks: seq<Token>): (r: Result<Parsed<Node>, ParseError>)
    ensures r.Ok? ==> Consumed(toks, r.value.rest) && r.value.node.ObjectExpression?
    decreases |toks|, 14
  {
    var properties :- if NextIs(toks, "}") then Ok(Parsed([], toks)) else PropertyList(toks);
    var rest :- Consume(properties.rest, "}");
    Ok(Parsed(ObjectExpression(properties.node), rest))
  }

  /** The loop of `objectDeclaration`: a key token, `:`, an assignment, then `,` to go on. */
  function PropertyList(toks: seq<Token>): (r: Result<Parsed<seq<Property>>, ParseError>)
    ensures r.Ok? ==> Consumed(toks, r.value.rest)
    decreases |toks|, 13
  {
    if |toks| == 0 then
      Err(NoTokenToInspect)
    else
      var afterColon :- Consume(toks[1..], ":");
      var value :- Assignment(afterColon);
      var property := Property(KeyNode(toks[0]), value.node);
      if NextIs(value.rest, ",") then
        var more :- PropertyList(value.rest[1..]);
        Ok(Parsed([property] + more.node, more.rest))
      else
        Ok(Parsed([property], value.rest))
  }

  /** `parseArguments`, after the `(`: comma-separated assignments, none if `)` follows at once. */
  function ParseArguments(toks: seq<Token>): (r: Result<Parsed<seq<Node>>, ParseError>)
    ensures r.Ok? ==> NoLonger(r.value.rest, toks)
    decreases |toks|, 14
  {
    if NextIs(toks, ")") then Ok(Parsed([], toks)) else ArgumentList(toks)
  }

  function ArgumentList(toks: seq<Token>): (r: Result<Parsed<seq<Node>>, ParseError>)
    ensures r.Ok? ==> Consumed(toks, r.value.rest)
    decreases |toks|, 13
  {
    var argument :- Assignment(toks);
    if NextIs(argument.rest, ",") then
      var more :- ArgumentList(argument.rest[1..]);
      Ok(Parsed([argument.node] + more.node, more.rest))
    else
      Ok(Parsed([argument.node], argument.rest))
  }

  /** `AST.ast`: lex the text, then parse a program from its tokens. */
  function ParseExpression(text: string): (r: Result<Node, SyntaxError>)
    ensures r.Ok? ==> r.value.Program?
  {
    match Lex(text)
    case Err(e) => Err(LexicalError(e))
    case Ok(toks) =>
      match ProgramOf(toks)
      case Err(e) => Err(GrammarError(e))
      case Ok(node) => Ok(node)
  }
}
