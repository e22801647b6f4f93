/**
 * The language the one-pass compiler accepts: precedence climbing over tokens, with the
 * checks it makes on the way, building the syntax tree it never stores.
 */
module Grammar {
  import opened Words
  import opened Syntax
  import opened Codegen

  // Numbers of the compiler's error messages.
  const EXPECTED_TOKEN: int := 1
  const UNEXPECTED_EOF: int := 2
  const BAD_CALL: int := 3
  const UNDEFINED_VARIABLE: int := 4
  const BAD_DEREFERENCE: int := 5
  const BAD_ADDRESS_OF: int := 6
  const BAD_PRE_INCREMENT: int := 7
  const BAD_EXPRESSION: int := 8
  const BAD_ASSIGNMENT: int := 9
  const MISSING_COLON: int := 10
  const BAD_INCREMENT: int := 11
  const POINTER_EXPECTED: int := 12
  const COMPILER_ERROR: int := 13

  type ErrorNumber = n: int | n > 0 witness 1

  datatype Parsed<+T> = Ok(value: T, rest: seq<Token>) | Err(error: ErrorNumber)

  // The value register after stepping past a number: the next token may overwrite it.
  function ValuePast(ts: seq<Token>): Word
    requires |ts| > 0 && HasValue(ts[0])
  {
    if |ts| > 1 && HasValue(ts[1]) then ts[1].value else ts[0].value
  }

  // The symbol register after stepping past a name: the next token may overwrite it.
  function SymbolPast(ts: seq<Token>): nat
    requires |ts| > 0 && HasSymbol(ts[0])
  {
    if |ts| > 1 && HasSymbol(ts[1]) then ts[1].sym else ts[0].sym
  }

  function SkipKind(kind: int, ts: seq<Token>): (r: seq<Token>)
    ensures |r| <= |ts|
    decreases |ts|
  {
    if |ts| > 0 && Kind(ts) == kind then SkipKind(kind, ts[1..]) else ts
  }

  function CountKind(kind: int, ts: seq<Token>): nat
    decreases |ts|
  {
    if |ts| > 0 && Kind(ts) == kind then 1 + CountKind(kind, ts[1..]) else 0
  }

  // The level at which the operand to the right of a binary operator is parsed.
  function RightLevel(op: BinOp): int {
    match op
    case BOr => XOR
    case BXor => AND
    case BAnd => EQ
    case BEq => NE
    case BNe => LT
    case BLt => SHL case BGt => SHL case BLe => SHL case BGe => SHL
    case BShl => ADD case BShr => ADD
    case BAdd => MUL case BSub => MUL
    case BMul => INC case BDiv => INC case BMod => INC
  }

  function BinOpOf(kind: int): Option<BinOp> {
    if kind == OR then Some(BOr) else if kind == XOR then Some(BXor) else if kind == AND then Some(BAnd)
    else if kind == EQ then Some(BEq) else if kind == NE then Some(BNe)
    else if kind == LT then Some(BLt) else if kind == GT then Some(BGt)
    else if kind == LE then Some(BLe) else if kind == GE then Some(BGe)
    else if kind == SHL then Some(BShl) else if kind == SHR then Some(BShr)
    else if kind == ADD then Some(BAdd) else if kind == SUB then Some(BSub)
    else if kind == MUL then Some(BMul) else if kind == DIV then Some(BDiv) else if kind == MOD then Some(BMod)
    else None
  }

  // The tests the compiler itself makes on an expression.
  predicate Accepted(g: Scope, e: Expr)
    decreases e, 0
  {
    match e
    case Ident(x) => Lookup(g, x).class_ in {Enumerator, Local, Global}
    case Call(x, args) => Lookup(g, x).class_ in {Library, Function} && AcceptedArgs(g, args)
    case Cast(_, _, e) => Accepted(g, e)
    case Deref(e) => Accepted(g, e)
    case AddressOf(e) => Accepted(g, e) && EndsInLoad(ExprCode(g, e))
    case Unary(_, e) => Accepted(g, e)
    case PreStep(_, e) => Accepted(g, e) && EndsInLoad(ExprCode(g, e))
    case PostStep(_, e) => Accepted(g, e) && EndsInLoad(ExprCode(g, e))
    case Index(e, i) => Accepted(g, e) && Accepted(g, i)
    case Assign(l, r) => Accepted(g, l) && Accepted(g, r) && EndsInLoad(ExprCode(g, l))
    case Conditional(c, a, b) => Accepted(g, c) && Accepted(g, a) && Accepted(g, b)
    case LogicalOr(a, b) => Accepted(g, a) && Accepted(g, b)
    case LogicalAnd(a, b) => Accepted(g, a) && Accepted(g, b)
    case Binary(_, a, b) => Accepted(g, a) && Accepted(g, b)
    case _ => true
  }

  predicate AcceptedArgs(g: Scope, args: List<Expr>)
    decreases args, 1
  {
    match args
    case Nil => true
    case Cons(e, rest) => Accepted(g, e) && AcceptedArgs(g, rest)
  }

  // ----- expressions -----

  // Everything up to the first operator below `level`.
  function ParseExpr(g: Scope, level: int, ts: seq<Token>): (r: Parsed<Expr>)
    ensures r.Ok? ==> |r.rest| < |ts| && Accepted(g, r.value)
    decreases |ts|, 3
  {
    match ParseUnit(g, ts)
    case Err(c) => Err(c)
    case Ok(e, rest) => ParseOps(g, level, e, rest)
  }

  // The operators that follow `left`, as long as they bind at `level` or tighter.
  function ParseOps(g: Scope, level: int, left: Expr, ts: seq<Token>): (r: Parsed<Expr>)
    ensures r.Ok? ==> |r.rest| <= |ts| && (Accepted(g, left) ==> Accepted(g, r.value))
    decreases |ts|, 2
  {
    if |ts| == 0 || Kind(ts) < level then Ok(left, ts) else
    match ParseOp(g, left, ts)
    case Err(c) => Err(c)
    case Ok(e, rest) => ParseOps(g, level, e, rest)
  }

  // One operator after `left`, with its right operand if it has one.
  function ParseOp(g: Scope, left: Expr, ts: seq<Token>): (r: Parsed<Expr>)
    requires |ts| > 0
    ensures r.Ok? ==> |r.rest| < |ts| && (Accepted(g, left) ==> Accepted(g, r.value))
    decreases |ts|, 1
  {
    var k := Kind(ts);
    var rest := ts[1..];
    if k == ASSIGN then
      if !EndsInLoad(ExprCode(g, left)) then Err(BAD_ASSIGNMENT) else
      match ParseExpr(g, ASSIGN, rest)
      case Err(c) => Err(c)
      case Ok(r, rest) => Ok(Assign(left, r), rest)
    else if k == COND then
      match ParseExpr(g, ASSIGN, rest)
      case Err(c) => Err(c)
      case Ok(a, rest) =>
        if Kind(rest) != COLON then Err(MISSING_COLON) else
        match ParseExpr(g, COND, rest[1..])
        case Err(c) => Err(c)
        case Ok(b, rest) => Ok(Conditional(left, a, b), rest)
    else if k == LOR then
      match ParseExpr(g, LAN, rest)
      case Err(c) => Err(c)
      case Ok(b, rest) => Ok(LogicalOr(left, b), rest)
    else if k == LAN then
      match ParseExpr(g, OR, rest)
      case Err(c) => Err(c)
      case Ok(b, rest) => Ok(LogicalAnd(left, b), rest)
    else if BinOpOf(k).Some? then
      var op := BinOpOf(k).value;
      match ParseExpr(g, RightLevel(op), rest)
      case Err(c) => Err(c)
      case Ok(b, rest) => Ok(Binary(op, left, b), rest)
    else if k == INC || k == DEC then
      if EndsInLoad(ExprCode(g, left)) then Ok(PostStep(k == INC, left), rest) else Err(BAD_INCREMENT)
    else if k == BRAK then
      match ParseExpr(g, ASSIGN, rest)
      case Err(c) => Err(c)
      case Ok(i, rest) =>
        if Kind(rest) != RBRACK then Err(EXPECTED_TOKEN)
        else if TypeOf(g, left) < PTR_TYPE then Err(POINTER_EXPECTED)
        else Ok(Index(left, i), rest[1..])
    else Err(COMPILER_ERROR)
  }

  // A unit: a constant, a name, a call, a parenthesis, or a prefix operator and its operand.
  function ParseUnit(g: Scope, ts: seq<Token>): (r: Parsed<Expr>)
    ensures r.Ok? ==> |r.rest| < |ts| && Accepted(g, r.value)
    decreases |ts|, 1
  {
    if Kind(ts) == EOF || |ts| == 0 then Err(UNEXPECTED_EOF)
    else if ts[0].NumTok? then Ok(Num(ValuePast(ts)), ts[1..])
    else if ts[0].StrTok? then Ok(Str(ts[0].value), SkipKind(QUOTE, ts[1..]))
    else if ts[0].IdTok? then ParseName(g, ts)
    else
      var k := Kind(ts);
      var rest := ts[1..];
      if k == SIZEOF then ParseSizeOf(g, rest)
      else if k == LPAREN then
        if Kind(rest) == INT || Kind(rest) == CHAR then ParseCast(g, rest) else
        match ParseExpr(g, ASSIGN, rest)
        case Err(c) => Err(c)
        case Ok(e, rest) => if Kind(rest) == RPAREN then Ok(e, rest[1..]) else Err(EXPECTED_TOKEN)
      else if k == SUB && |rest| > 0 && rest[0].NumTok? then Ok(NegNum(rest[0].value), rest[1..])
      else if k in {MUL, AND, BANG, TILDE, ADD, SUB, INC, DEC} then
        match ParseExpr(g, INC, rest)
        case Err(c) => Err(c)
        case Ok(e, rest) => ParsePrefix(g, k, e, rest)
      else Err(BAD_EXPRESSION)
  }

  // The node a prefix operator builds from its operand, or the error it reports.
  function ParsePrefix(g: Scope, k: int, e: Expr, rest: seq<Token>): (r: Parsed<Expr>)
    ensures r.Ok? ==> r.rest == rest && (Accepted(g, e) ==> Accepted(g, r.value))
  {
    if k == MUL then if TypeOf(g, e) >= PTR_TYPE then Ok(Deref(e), rest) else Err(BAD_DEREFERENCE)
    else if k == AND then if EndsInLoad(ExprCode(g, e)) then Ok(AddressOf(e), rest) else Err(BAD_ADDRESS_OF)
    else if k == BANG then Ok(Unary(Not, e), rest)
    else if k == TILDE then Ok(Unary(Complement, e), rest)
    else if k == ADD then Ok(Unary(Plus, e), rest)
    else if k == SUB then Ok(Unary(Negate, e), rest)
    else if EndsInLoad(ExprCode(g, e)) then Ok(PreStep(k == INC, e), rest) else Err(BAD_PRE_INCREMENT)
  }

  // After the word `sizeof`.
  function ParseSizeOf(g: Scope, ts: seq<Token>): (r: Parsed<Expr>)
    ensures r.Ok? ==> |r.rest| < |ts| && Accepted(g, r.value)
  {
    if Kind(ts) != LPAREN then Err(EXPECTED_TOKEN) else
    var ts1 := ts[1..];
    var ts2 := if Kind(ts1) == INT || Kind(ts1) == CHAR then ts1[1..] else ts1;
    var ts3 := SkipKind(MUL, ts2);
    if Kind(ts3) != RPAREN then Err(EXPECTED_TOKEN)
    else Ok(SizeOf(Kind(ts1) == CHAR, CountKind(MUL, ts2)), ts3[1..])
  }

  // A cast, from the type name on.
  function ParseCast(g: Scope, ts: seq<Token>): (r: Parsed<Expr>)
    requires Kind(ts) == INT || Kind(ts) == CHAR
    ensures r.Ok? ==> |r.rest| < |ts| && Accepted(g, r.value)
    decreases |ts|, 4
  {
    var ts2 := SkipKind(MUL, ts[1..]);
    if Kind(ts2) != RPAREN then Err(EXPECTED_TOKEN) else
    match ParseExpr(g, INC, ts2[1..])
    case Err(c) => Err(c)
    case Ok(e, rest) => Ok(Cast(Kind(ts) == CHAR, CountKind(MUL, ts[1..]), e), rest)
  }

  // A name: a call when a parenthesis follows, a constant or a variable otherwise.
  function ParseName(g: Scope, ts: seq<Token>): (r: Parsed<Expr>)
    requires |ts| > 0 && ts[0].IdTok?
    ensures r.Ok? ==> |r.rest| < |ts| && Accepted(g, r.value)
    decreases |ts|, 0
  {
    var x := SymbolPast(ts);
    if Kind(ts[1..]) == LPAREN then
      match ParseArgs(g, ts[2..])
      case Err(c) => Err(c)
      case Ok(args, rest) =>
        if Lookup(g, x).class_ in {Library, Function} then Ok(Call(x, args), rest) else Err(BAD_CALL)
    else if Lookup(g, x).class_ in {Enumerator, Local, Global} then Ok(Ident(x), ts[1..])
    else Err(UNDEFINED_VARIABLE)
  }

  // Arguments up to and including the closing parenthesis; commas are optional.
  function ParseArgs(g: Scope, ts: seq<Token>): (r: Parsed<List<Expr>>)
    ensures r.Ok? ==> |r.rest| < |ts| && AcceptedArgs(g, r.value)
    decreases |ts|, 4
  {
    if Kind(ts) == RPAREN then Ok(Nil, ts[1..]) else
    match ParseExpr(g, ASSIGN, ts)
    case Err(c) => Err(c)
    case Ok(e, rest) =>
      match ParseArgs(g, if Kind(rest) == COMMA then rest[1..] else rest)
      case Err(c) => Err(c)
      case Ok(args, rest) => Ok(Cons(e, args), rest)
  }

  // ----- statements -----

  function ParseStmt(g: Scope, ts: seq<Token>): (r: Parsed<Stmt>)
    ensures r.Ok? ==> |r.rest| < |ts|
    decreases |ts|, 0
  {
    var k := Kind(ts);
    if k == IF then
      match ParseCondition(g, ts[1..])
      case Err(c) => Err(c)
      case Ok(c, rest) =>
        match ParseStmt(g, rest)
        case Err(c) => Err(c)
        case Ok(s, rest) =>
          if Kind(rest) != ELSE then Ok(If(c, s), rest) else
          match ParseStmt(g, rest[1..])
          case Err(c) => Err(c)
          case Ok(t, rest) => Ok(IfElse(c, s, t), rest)
    else if k == WHILE then
      match ParseCondition(g, ts[1..])
      case Err(c) => Err(c)
      case Ok(c, rest) =>
        match ParseStmt(g, rest)
        case Err(c) => Err(c)
        case Ok(s, rest) => Ok(While(c, s), rest)
    else if k == LBRACE then
      match ParseStmts(g, ts[1..])
      case Err(c) => Err(c)
      case Ok(ss, rest) => Ok(Block(ss), rest[1..])
    else if k == RETURN then
      if Kind(ts[1..]) == SEMI then Ok(Return, ts[2..]) else
      match ParseExpr(g, ASSIGN, ts[1..])
      case Err(c) => Err(c)
      case Ok(e, rest) => if Kind(rest) == SEMI then Ok(ReturnValue(e), rest[1..]) else Err(EXPECTED_TOKEN)
    else if k == SEMI then Ok(Empty, ts[1..])
    else
      match ParseExpr(g, ASSIGN, ts)
      case Err(c) => Err(c)
      case Ok(e, rest) => if Kind(rest) == SEMI then Ok(Evaluate(e), rest[1..]) else Err(EXPECTED_TOKEN)
  }

  // A parenthesised condition.
  function ParseCondition(g: Scope, ts: seq<Token>): (r: Parsed<Expr>)
    ensures r.Ok? ==> |r.rest| < |ts| && Accepted(g, r.value)
  {
    if Kind(ts) != LPAREN then Err(EXPECTED_TOKEN) else
    match ParseExpr(g, ASSIGN, ts[1..])
    case Err(c) => Err(c)
    case Ok(e, rest) => if Kind(rest) == RPAREN then Ok(e, rest[1..]) else Err(EXPECTED_TOKEN)
  }

  // Statements up to, not including, a closing brace.
  function ParseStmts(g: Scope, ts: seq<Token>): (r: Parsed<List<Stmt>>)
    ensures r.Ok? ==> |r.rest| <= |ts| && Kind(r.rest) == RBRACE
    decreases |ts|, 1
  {
    if Kind(ts) == RBRACE then Ok(Nil, ts) else
    match ParseStmt(g, ts)
    case Err(c) => Err(c)
    case Ok(s, rest) =>
      match ParseStmts(g, rest)
      case Err(c) => Err(c)
      case Ok(ss, rest) => Ok(Cons(s, ss), rest)
  }
}
