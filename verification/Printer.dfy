/**
 * Printing a syntax tree with just the parentheses the level order requires, and the
 * proof that precedence climbing reads back exactly that tree.
 */
module Printer {
  import opened Words
  import opened Syntax
  import opened Codegen
  import opened Grammar
  import CodeShape
  import M = Machine

  // ----- the static rules of the language -----

  // Expressions the compiler has a meaning for: lvalues where it needs one, pointers
  // where it dereferences, names of the class the context asks for.
  predicate WellFormed(g: Scope, e: Expr)
    decreases e, 0
  {
    match e
    case Num(_) => true
    case NegNum(_) => true
    case Str(_) => true
    case SizeOf(_, _) => true
    case Ident(x) => Lookup(g, x).class_ in {Enumerator, Local, Global}
    case Call(x, args) => Lookup(g, x).class_ in {Library, Function} && WellFormedArgs(g, args)
    case Cast(_, _, e) => WellFormed(g, e)
    case Deref(e) => WellFormed(g, e) && TypeOf(g, e) >= PTR_TYPE
    case AddressOf(e) => WellFormed(g, e) && IsLvalue(g, e)
    case Unary(_, e) => WellFormed(g, e)
    case PreStep(_, e) => WellFormed(g, e) && IsLvalue(g, e)
    case PostStep(_, e) => WellFormed(g, e) && IsLvalue(g, e)
    case Index(e, i) => WellFormed(g, e) && WellFormed(g, i) && TypeOf(g, e) >= PTR_TYPE
    case Assign(l, r) => WellFormed(g, l) && WellFormed(g, r) && IsLvalue(g, l)
    case Conditional(c, a, b) => WellFormed(g, c) && WellFormed(g, a) && WellFormed(g, b)
    case LogicalOr(a, b) => WellFormed(g, a) && WellFormed(g, b)
    case LogicalAnd(a, b) => WellFormed(g, a) && WellFormed(g, b)
    case Binary(_, a, b) => WellFormed(g, a) && WellFormed(g, b)
  }

  predicate WellFormedArgs(g: Scope, args: List<Expr>)
    decreases args, 1
  {
    match args
    case Nil => true
    case Cons(e, rest) => WellFormed(g, e) && WellFormedArgs(g, rest)
  }

  // Statements whose `else` belongs to the `if` it is printed after.
  predicate WellFormedStmt(g: Scope, s: Stmt)
    decreases s, 0
  {
    match s
    case If(c, s) => WellFormed(g, c) && WellFormedStmt(g, s)
    case IfElse(c, s, t) => WellFormed(g, c) && WellFormedStmt(g, s) && WellFormedStmt(g, t) && !EndsOpen(s)
    case While(c, s) => WellFormed(g, c) && WellFormedStmt(g, s)
    case Block(ss) => WellFormedStmts(g, ss)
    case Return => true
    case ReturnValue(e) => WellFormed(g, e)
    case Empty => true
    case Evaluate(e) => WellFormed(g, e)
  }

  predicate WellFormedStmts(g: Scope, ss: List<Stmt>)
    decreases ss, 1
  {
    match ss
    case Nil => true
    case Cons(s, rest) => WellFormedStmt(g, s) && WellFormedStmts(g, rest)
  }

  // The statement ends in an `if` that an `else` could still attach to.
  predicate EndsOpen(s: Stmt) {
    match s
    case If(_, _) => true
    case IfElse(_, _, t) => EndsOpen(t)
    case While(_, s) => EndsOpen(s)
    case _ => false
  }

  // ----- levels -----

  const TIGHTEST: int := BRAK + 1

  function KindOfBinOp(op: BinOp): int {
    match op
    case BOr => OR case BXor => XOR case BAnd => AND case BEq => EQ case BNe => NE
    case BLt => LT case BGt => GT case BLe => LE case BGe => GE
    case BShl => SHL case BShr => SHR case BAdd => ADD case BSub => SUB
    case BMul => MUL case BDiv => DIV case BMod => MOD
  }

  // The kind of the outermost operator.
  function OuterLevel(e: Expr): int {
    match e
    case Assign(_, _) => ASSIGN
    case Conditional(_, _, _) => COND
    case LogicalOr(_, _) => LOR
    case LogicalAnd(_, _) => LAN
    case Binary(op, _, _) => KindOfBinOp(op)
    case Cast(_, _, _) => INC
    case Deref(_) => INC
    case AddressOf(_) => INC
    case Unary(_, _) => INC
    case PreStep(_, _) => INC
    case _ => TIGHTEST
  }

  // An operator of this kind or above, right after the printed tree, would be taken
  // into the tree's last operand.
  function Grip(e: Expr): int {
    match e
    case Assign(_, _) => ASSIGN
    case Conditional(_, _, _) => COND
    case LogicalOr(_, _) => LAN
    case LogicalAnd(_, _) => OR
    case Binary(op, _, _) => RightLevel(op)
    case _ => OuterLevel(e)
  }

  // ----- printing -----

  function Parens(ts: seq<Token>): seq<Token> {
    [Tok(LPAREN)] + ts + [Tok(RPAREN)]
  }

  // As an operand parsed at `level`.
  function PrintAt(level: int, e: Expr): seq<Token>
    decreases e, 1
  {
    if OuterLevel(e) < level then Parens(Print(e)) else Print(e)
  }

  // As the operand to the left of an operator of kind `k`.
  function PrintLeft(e: Expr, k: int): seq<Token>
    decreases e, 1
  {
    if Grip(e) <= k then Parens(Print(e)) else Print(e)
  }

  // As the operand of a minus sign, which swallows a number that follows it.
  function PrintNegated(e: Expr): seq<Token>
    decreases e, 2
  {
    var ts := PrintAt(INC, e);
    if |ts| > 0 && ts[0].NumTok? then Parens(Print(e)) else ts
  }

  function Stars(n: nat): (ts: seq<Token>)
    ensures |ts| == n && forall i :: 0 <= i < n ==> ts[i] == Tok(MUL)
  {
    seq(n, _ => Tok(MUL))
  }

  // The keyword entries of the symbol table come first, in keyword order.
  function Keyword(k: int): Token { KeyTok(k, if k >= CHAR then k - CHAR else 0) }

  function PrintType(isChar: bool, stars: nat): seq<Token> {
    [Tok(LPAREN), Keyword(if isChar then CHAR else INT)] + Stars(stars) + [Tok(RPAREN)]
  }

  function PrefixKind(e: Expr): int {
    match e
    case Deref(_) => MUL
    case AddressOf(_) => AND
    case Unary(op, _) => (match op case Not => BANG case Complement => TILDE case Plus => ADD case Negate => SUB)
    case PreStep(up, _) => if up then INC else DEC
    case _ => EOF
  }

  function Print(e: Expr): seq<Token>
    decreases e, 0
  {
    match e
    case Num(v) => [NumTok(v)]
    case NegNum(v) => [Tok(SUB), NumTok(v)]
    case Str(a) => [StrTok(a)]
    case SizeOf(c, n) => [Keyword(SIZEOF)] + PrintType(c, n)
    case Ident(x) => [IdTok(x)]
    case Call(x, args) => [IdTok(x), Tok(LPAREN)] + PrintArgs(args)
    case Cast(c, n, e) => PrintType(c, n) + PrintAt(INC, e)
    case Deref(d) => [Tok(PrefixKind(e))] + PrintAt(INC, d)
    case AddressOf(d) => [Tok(PrefixKind(e))] + PrintAt(INC, d)
    case Unary(op, d) => [Tok(PrefixKind(e))] + if op == Negate then PrintNegated(d) else PrintAt(INC, d)
    case PreStep(_, d) => [Tok(PrefixKind(e))] + PrintAt(INC, d)
    case PostStep(up, e) =>
      var k := if up then INC else DEC;
      PrintLeft(e, k) + [Tok(k)]
    case Index(e, i) => PrintLeft(e, BRAK) + [Tok(BRAK)] + Print(i) + [Tok(RBRACK)]
    case Assign(l, r) => PrintLeft(l, ASSIGN) + [Tok(ASSIGN)] + Print(r)
    case Conditional(c, a, b) =>
      PrintLeft(c, COND) + [Tok(COND)] + Print(a) + [Tok(COLON)] + PrintAt(COND, b)
    case LogicalOr(a, b) => PrintLeft(a, LOR) + [Tok(LOR)] + PrintAt(LAN, b)
    case LogicalAnd(a, b) => PrintLeft(a, LAN) + [Tok(LAN)] + PrintAt(OR, b)
    case Binary(op, a, b) => PrintLeft(a, KindOfBinOp(op)) + [Tok(KindOfBinOp(op))] + PrintAt(RightLevel(op), b)
  }

  // Arguments separated by commas, and the closing parenthesis.
  function PrintArgs(args: List<Expr>): seq<Token>
    decreases args, 2
  {
    match args
    case Nil => [Tok(RPAREN)]
    case Cons(e, Nil) => Print(e) + [Tok(RPAREN)]
    case Cons(e, rest) => Print(e) + [Tok(COMMA)] + PrintArgs(rest)
  }

  function PrintStmt(s: Stmt): seq<Token>
    decreases s, 0
  {
    match s
    case If(c, s) => [Keyword(IF)] + Parens(Print(c)) + PrintStmt(s)
    case IfElse(c, s, t) => [Keyword(IF)] + Parens(Print(c)) + PrintStmt(s) + [Keyword(ELSE)] + PrintStmt(t)
    case While(c, s) => [Keyword(WHILE)] + Parens(Print(c)) + PrintStmt(s)
    case Block(ss) => [Tok(LBRACE)] + PrintStmts(ss) + [Tok(RBRACE)]
    case Return => [Keyword(RETURN), Tok(SEMI)]
    case ReturnValue(e) => [Keyword(RETURN)] + Print(e) + [Tok(SEMI)]
    case Empty => [Tok(SEMI)]
    case Evaluate(e) => Print(e) + [Tok(SEMI)]
  }

  function PrintStmts(ss: List<Stmt>): seq<Token>
    decreases ss, 1
  {
    match ss
    case Nil => []
    case Cons(s, rest) => PrintStmt(s) + PrintStmts(rest)
  }

  // ----- facts about levels and blocks -----

  // The levels at which the compiler ever parses an operand.
  predicate IsLevel(level: int) {
    level in {ASSIGN, COND, LAN, OR, XOR, AND, EQ, NE, LT, SHL, ADD, MUL, INC}
  }

  // An operand left unparenthesised before an operator handled at `level` is itself
  // parsed at `level`.
  lemma LeftOperandLevel(e: Expr, k: int, level: int)
    requires IsLevel(level) && level <= k < Grip(e)
    ensures level <= OuterLevel(e)
  {
  }

  lemma BinOpKinds(op: BinOp)
    ensures BinOpOf(KindOfBinOp(op)) == Some(op)
    ensures IsLevel(RightLevel(op)) && KindOfBinOp(op) < RightLevel(op)
    ensures LAN < KindOfBinOp(op) < INC
  {
  }

  // The genuine lvalues pass the generator's test.
  lemma LvalueEndsInLoad(g: Scope, e: Expr)
    requires WellFormed(g, e) && IsLvalue(g, e)
    ensures EndsInLoad(ExprCode(g, e))
  {
  }

  // The token after an operand does not disturb the value and symbol registers.
  predicate Separates(ts: seq<Token>) {
    |ts| == 0 || (ts[0].Tok? && ts[0].kind !in {QUOTE, LPAREN})
  }

  lemma TypeStarts(isChar: bool, stars: nat)
    ensures |PrintType(isChar, stars)| > 0 && PrintType(isChar, stars)[0] == Tok(LPAREN)
  {
  }

  // How no expression starts.
  predicate StartsExpr(ts: seq<Token>) {
    |ts| > 0 && Kind(ts) != EOF && Kind(ts) !in {INT, CHAR, RPAREN, RBRACE, SEMI, IF, WHILE, LBRACE, RETURN, ELSE}
  }

  lemma {:induction false} PrintStarts(e: Expr)
    ensures StartsExpr(Print(e))
  {
    hide Print, PrintLeft, PrintAt, StartsExpr;
    match e
    case PostStep(up, a) =>
      PrintStarts(a);
      PrintOfPostfix(up, a, a);
      LeftStarts(a, if up then INC else DEC, [Tok(if up then INC else DEC)]);
    case Index(a, i) =>
      PrintStarts(a);
      PrintOfPostfix(true, a, i);
      StartsLonger(a, BRAK, Print(i) + [Tok(RBRACK)], Print(e));
    case Assign(l, r) =>
      PrintStarts(l);
      PrintOfAssign(l, r);
      StartsLonger(l, ASSIGN, Print(r), Print(e));
    case Conditional(c, a, b) =>
      PrintStarts(c);
      PrintOfConditional(c, a, b);
      StartsLonger(c, COND, Print(a) + [Tok(COLON)] + PrintAt(COND, b), Print(e));
    case LogicalOr(a, b) => InfixStarts(e, a, LOR, LAN, b);
    case LogicalAnd(a, b) => InfixStarts(e, a, LAN, OR, b);
    case Binary(op, a, b) => InfixStarts(e, a, KindOfBinOp(op), RightLevel(op), b);
    case _ => UnitPrintStarts(e);
  }

  lemma {:induction false} InfixStarts(e: Expr, a: Expr, k: int, right: int, b: Expr)
    requires IsInfix(e, a, k, right, b)
    ensures StartsExpr(Print(e))
    decreases e, 0
  {
    hide Print, PrintLeft, PrintAt, StartsExpr;
    InfixLevels(e, a, k, right, b);
    PrintStarts(a);
    PrintOfInfix(e, a, k, right, b);
    StartsLonger(a, k, PrintAt(right, b), Print(e));
  }

  lemma LeftStarts(e: Expr, k: int, more: seq<Token>)
    requires StartsExpr(Print(e))
    ensures StartsExpr(PrintLeft(e, k) + more)
  {
    hide Print, Grip;
  }

  lemma StartsLonger(e: Expr, k: int, more: seq<Token>, ts: seq<Token>)
    requires StartsExpr(Print(e)) && ts == PrintLeft(e, k) + ([Tok(k)] + more)
    ensures StartsExpr(ts)
  {
    hide Print, PrintLeft, StartsExpr;
    LeftStarts(e, k, [Tok(k)] + more);
  }

  lemma UnitPrintStarts(e: Expr)
    requires OuterLevel(e) >= INC && !e.PostStep? && !e.Index?
    ensures StartsExpr(Print(e))
  {
    hide PrintAt, PrintLeft, PrintNegated, PrintArgs, PrintType;
    if e.Cast? {
      TypeStarts(e.isChar, e.stars);
    }
  }

  lemma {:induction false} SkipStars(n: nat, rest: seq<Token>)
    requires Kind(rest) != MUL
    ensures SkipKind(MUL, Stars(n) + rest) == rest && CountKind(MUL, Stars(n) + rest) == n
  {
    if n == 0 {
      assert Stars(0) + rest == rest;
    } else {
      assert (Stars(n) + rest)[1..] == Stars(n - 1) + rest;
      SkipStars(n - 1, rest);
    }
  }

  // ----- precedence climbing inverts printing -----

  // Reading a printed tree leaves the compiler where it would be with that tree as the
  // left operand and the rest of the input before it.
  lemma {:induction false} ParsePrint(g: Scope, level: int, e: Expr, rest: seq<Token>)
    requires WellFormed(g, e) && IsLevel(level) && level <= OuterLevel(e)
    requires Separates(rest) && Kind(rest) < Grip(e)
    ensures ParseExpr(g, level, Print(e) + rest) == ParseOps(g, level, e, rest)
    decreases e, 2
  {
    hide Print, PrintAt, PrintLeft, ParseExpr, ParseOps, ParseOp, ParseUnit, IsLevel, Separates;
    match e
    case PostStep(up, a) => ParsePrintPost(g, level, up, a, rest);
    case Index(a, i) => ParsePrintIndex(g, level, a, i, rest);
    case Assign(l, r) => ParsePrintAssign(g, level, l, r, rest);
    case Conditional(c, a, b) => ParsePrintConditional(g, level, c, a, b, rest);
    case LogicalOr(a, b) => ParsePrintOperator(g, level, e, a, LOR, LAN, b, rest);
    case LogicalAnd(a, b) => ParsePrintOperator(g, level, e, a, LAN, OR, b, rest);
    case Binary(op, a, b) => ParsePrintOperator(g, level, e, a, KindOfBinOp(op), RightLevel(op), b, rest);
    case _ =>
      ParsePrintUnit(g, e, rest);
      UnitStarts(g, level, e, Print(e) + rest, rest);
  }

  // An operator with a right operand and no side condition, with its kind and the level of
  // its right operand.
  predicate IsInfix(e: Expr, a: Expr, k: int, right: int, b: Expr) {
    match e
    case LogicalOr(x, y) => x == a && y == b && k == LOR && right == LAN
    case LogicalAnd(x, y) => x == a && y == b && k == LAN && right == OR
    case Binary(op, x, y) => x == a && y == b && k == KindOfBinOp(op) && right == RightLevel(op)
    case _ => false
  }

  lemma {:induction false} ParsePrintOperator(g: Scope, level: int, e: Expr, a: Expr, k: int, right: int, b: Expr,
                                              rest: seq<Token>)
    requires WellFormed(g, a) && WellFormed(g, b) && IsInfix(e, a, k, right, b)
    requires IsLevel(level) && level <= k && Separates(rest) && Kind(rest) < right
    ensures ParseExpr(g, level, Print(e) + rest) == ParseOps(g, level, e, rest)
    decreases e, 1
  {
    hide Print, PrintAt, PrintLeft, ParseExpr, ParseOps, ParseOp, WellFormed, Separates;
    InfixLevels(e, a, k, right, b);
    PrintOfInfix(e, a, k, right, b);
    var ts := [Tok(k)] + (PrintAt(right, b) + rest);
    ParsePrintInfix(g, level, e, a, k, right, b, rest, ParseExpr(g, level, Print(e) + rest));
    InfixOp(g, e, a, k, right, b, ts, rest);
    OpsContinue(g, level, a, ts, e, rest);
  }

  lemma InfixLevels(e: Expr, a: Expr, k: int, right: int, b: Expr)
    requires IsInfix(e, a, k, right, b)
    ensures IsLevel(right) && k < right && a < e && b < e
  {
  }

  lemma PrintOfInfix(e: Expr, a: Expr, k: int, right: int, b: Expr)
    requires IsInfix(e, a, k, right, b)
    ensures Print(e) == PrintLeft(a, k) + [Tok(k)] + PrintAt(right, b)
  {
    hide PrintLeft, PrintAt, PrintArgs, PrintNegated, PrintType;
  }

  // The operator and its right operand make the whole.
  lemma InfixOp(g: Scope, e: Expr, a: Expr, k: int, right: int, b: Expr, ts: seq<Token>, rest: seq<Token>)
    requires IsInfix(e, a, k, right, b) && |ts| > 0 && ts[0] == Tok(k) && ParseExpr(g, right, ts[1..]) == Ok(b, rest)
    ensures ParseOp(g, a, ts) == Ok(e, rest)
  {
    hide ParseExpr, TypeOf, ExprCode;
    if e.Binary? { BinOpKinds(e.op); }
  }

  // After a unit, the climb starts with it.
  lemma UnitStarts(g: Scope, level: int, e: Expr, ts: seq<Token>, rest: seq<Token>)
    requires ParseUnit(g, ts) == Ok(e, rest)
    ensures ParseExpr(g, level, ts) == ParseOps(g, level, e, rest)
  {
    hide ParseUnit, ParseOps;
  }

  // The shape shared by all operators with a right operand and no side condition: the
  // parse `p` of the whole continues after `a`, and the right operand is `b`.
  lemma {:induction false} ParsePrintInfix(g: Scope, level: int, e: Expr, a: Expr, k: int, right: int, b: Expr,
                                           rest: seq<Token>, p: Parsed<Expr>)
    requires WellFormed(g, a) && WellFormed(g, b) && a < e && b < e
    requires IsLevel(level) && IsLevel(right) && level <= k < right
    requires Separates(rest) && Kind(rest) < right
    requires p == ParseExpr(g, level, PrintLeft(a, k) + [Tok(k)] + PrintAt(right, b) + rest)
    ensures var ts := [Tok(k)] + (PrintAt(right, b) + rest);
      p == ParseOps(g, level, a, ts) && ParseExpr(g, right, ts[1..]) == Ok(b, rest)
    decreases e, 0
  {
    hide *;
    var tail := PrintAt(right, b) + rest;
    assert PrintLeft(a, k) + [Tok(k)] + PrintAt(right, b) + rest == PrintLeft(a, k) + ([Tok(k)] + tail);
    assert ([Tok(k)] + tail)[1..] == tail;
    ParsePrintLeft(g, level, a, k, tail);
    ParsePrintAt(g, right, b, rest);
  }

  // One operator handled, the climb goes on with the bigger tree.
  lemma OpsContinue(g: Scope, level: int, left: Expr, ts: seq<Token>, e: Expr, rest: seq<Token>)
    requires |ts| > 0 && Kind(ts) >= level && ParseOp(g, left, ts) == Ok(e, rest)
    ensures ParseOps(g, level, left, ts) == ParseOps(g, level, e, rest)
  {
    hide ParseOp;
  }

  // ----- the tokens of each form, for one unfolding at a time -----

  lemma PrintOfPostfix(up: bool, a: Expr, i: Expr)
    ensures var k := if up then INC else DEC; Print(PostStep(up, a)) == PrintLeft(a, k) + [Tok(k)]
    ensures Print(Index(a, i)) == PrintLeft(a, BRAK) + [Tok(BRAK)] + Print(i) + [Tok(RBRACK)]
  {
    hide PrintLeft, PrintAt, PrintArgs, PrintNegated, PrintType;
  }

  lemma PrintOfAssign(l: Expr, r: Expr)
    ensures Print(Assign(l, r)) == PrintLeft(l, ASSIGN) + [Tok(ASSIGN)] + Print(r)
  {
    hide PrintLeft, PrintAt, PrintArgs, PrintNegated, PrintType;
  }

  lemma PrintOfConditional(c: Expr, a: Expr, b: Expr)
    ensures Print(Conditional(c, a, b)) == PrintLeft(c, COND) + [Tok(COND)] + Print(a) + [Tok(COLON)] + PrintAt(COND, b)
  {
    hide PrintLeft, PrintAt, PrintArgs, PrintNegated, PrintType;
  }

  lemma PrintOfCast(isChar: bool, stars: nat, d: Expr)
    ensures Print(Cast(isChar, stars, d)) == PrintType(isChar, stars) + PrintAt(INC, d)
  {
    hide PrintLeft, PrintAt, PrintArgs, PrintNegated, PrintType;
  }

  lemma PrintOfArgs(e: Expr, more: List<Expr>)
    ensures PrintArgs(Cons(e, more)) == if more.Nil? then Print(e) + [Tok(RPAREN)] else Print(e) + [Tok(COMMA)] + PrintArgs(more)
  {
    hide Print;
  }

  lemma PrintOfNoArgs()
    ensures PrintArgs(Nil) == [Tok(RPAREN)]
  {
  }

  lemma PrintAtLowest(e: Expr)
    ensures PrintAt(ASSIGN, e) == Print(e)
  {
    hide Print;
  }

  lemma {:induction false} ParsePrintPost(g: Scope, level: int, up: bool, a: Expr, rest: seq<Token>)
    requires WellFormed(g, a) && IsLvalue(g, a) && IsLevel(level) && Separates(rest)
    ensures ParseExpr(g, level, Print(PostStep(up, a)) + rest) == ParseOps(g, level, PostStep(up, a), rest)
    decreases PostStep(up, a), 0
  {
    hide Print, PrintLeft, PrintAt, ParseExpr, ParseOps, ParseOp, WellFormed, TypeOf, ExprCode, EndsInLoad, IsLvalue,
         OuterLevel, Grip;
    var k := if up then INC else DEC;
    var ts := [Tok(k)] + rest;
    PrintOfPostfix(up, a, a);
    assert PrintLeft(a, k) + [Tok(k)] + rest == PrintLeft(a, k) + ts && ts[1..] == rest;
    LvalueEndsInLoad(g, a);
    CodeShape.GrammarOfStep(g, a, ts);
    ParsePrintLeft(g, level, a, k, rest);
    OpsContinue(g, level, a, ts, PostStep(up, a), rest);
  }

  lemma {:induction false} ParsePrintIndex(g: Scope, level: int, a: Expr, i: Expr, rest: seq<Token>)
    requires WellFormed(g, a) && WellFormed(g, i) && TypeOf(g, a) >= PTR_TYPE && IsLevel(level) && Separates(rest)
    ensures ParseExpr(g, level, Print(Index(a, i)) + rest) == ParseOps(g, level, Index(a, i), rest)
    decreases Index(a, i), 0
  {
    hide Print, PrintLeft, PrintAt, ParseExpr, ParseOps, ParseOp, WellFormed, TypeOf, ExprCode, EndsInLoad, IsLvalue,
         OuterLevel, Grip;
    var closing := [Tok(RBRACK)] + rest;
    var tail := Print(i) + closing;
    var ts := [Tok(BRAK)] + tail;
    PrintOfPostfix(true, a, i);
    PrintAtLowest(i);
    assert PrintLeft(a, BRAK) + [Tok(BRAK)] + Print(i) + [Tok(RBRACK)] + rest == PrintLeft(a, BRAK) + ts;
    assert ts[1..] == tail && closing[1..] == rest;
    ParsePrintLeft(g, level, a, BRAK, tail);
    ParsePrintAt(g, ASSIGN, i, closing);
    CodeShape.GrammarOfIndex(g, a, ts);
    OpsContinue(g, level, a, ts, Index(a, i), rest);
  }

  lemma {:induction false} ParsePrintAssign(g: Scope, level: int, l: Expr, r: Expr, rest: seq<Token>)
    requires WellFormed(g, l) && WellFormed(g, r) && IsLvalue(g, l) && IsLevel(level) && level <= ASSIGN
    requires Separates(rest) && Kind(rest) < ASSIGN
    ensures ParseExpr(g, level, Print(Assign(l, r)) + rest) == ParseOps(g, level, Assign(l, r), rest)
    decreases Assign(l, r), 0
  {
    hide Print, PrintLeft, PrintAt, ParseExpr, ParseOps, ParseOp, WellFormed, TypeOf, ExprCode, EndsInLoad, IsLvalue,
         OuterLevel, Grip;
    var tail := Print(r) + rest;
    var ts := [Tok(ASSIGN)] + tail;
    PrintOfAssign(l, r);
    PrintAtLowest(r);
    assert PrintLeft(l, ASSIGN) + [Tok(ASSIGN)] + Print(r) + rest == PrintLeft(l, ASSIGN) + ts && ts[1..] == tail;
    LvalueEndsInLoad(g, l);
    ParsePrintLeft(g, level, l, ASSIGN, tail);
    ParsePrintAt(g, ASSIGN, r, rest);
    CodeShape.GrammarOfAssign(g, l, ts);
    OpsContinue(g, level, l, ts, Assign(l, r), rest);
  }

  lemma {:induction false} ParsePrintConditional(g: Scope, level: int, c: Expr, a: Expr, b: Expr, rest: seq<Token>)
    requires WellFormed(g, c) && WellFormed(g, a) && WellFormed(g, b) && IsLevel(level) && level <= COND
    requires Separates(rest) && Kind(rest) < COND
    ensures ParseExpr(g, level, Print(Conditional(c, a, b)) + rest) == ParseOps(g, level, Conditional(c, a, b), rest)
    decreases Conditional(c, a, b), 0
  {
    hide Print, PrintLeft, PrintAt, ParseExpr, ParseOps, ParseOp, WellFormed, TypeOf, ExprCode, EndsInLoad, IsLvalue,
         OuterLevel, Grip;
    var last := PrintAt(COND, b) + rest;
    var middle := [Tok(COLON)] + last;
    var tail := Print(a) + middle;
    var ts := [Tok(COND)] + tail;
    PrintOfConditional(c, a, b);
    PrintAtLowest(a);
    Regroup(PrintLeft(c, COND), [Tok(COND)], Print(a), [Tok(COLON)], PrintAt(COND, b), rest);
    assert ts[1..] == tail && middle[1..] == last;
    ParsePrintLeft(g, level, c, COND, tail);
    ParsePrintAt(g, ASSIGN, a, middle);
    ParsePrintAt(g, COND, b, rest);
    CodeShape.GrammarOfConditional(g, c, ts);
    OpsContinue(g, level, c, ts, Conditional(c, a, b), rest);
  }

  // Units: the climb starts with the whole tree.
  lemma {:induction false} ParsePrintUnit(g: Scope, e: Expr, rest: seq<Token>)
    requires WellFormed(g, e) && OuterLevel(e) >= INC && !e.PostStep? && !e.Index?
    requires Separates(rest) && Kind(rest) < Grip(e)
    ensures ParseUnit(g, Print(e) + rest) == Ok(e, rest)
    decreases e, 1
  {
    hide Print, PrintAt, PrintArgs, ParseUnit, IsLvalue, Separates, Kind;
    match e
    case Num(v) => ParsePrintConstant(g, e, rest);
    case NegNum(v) => ParsePrintConstant(g, e, rest);
    case Str(a) => ParsePrintConstant(g, e, rest);
    case SizeOf(c, n) => ParsePrintSizeOf(g, c, n, rest);
    case Ident(x) => ParsePrintName(g, x, rest);
    case Call(x, args) =>
      ParsePrintArgs(g, args, rest);
      ParsePrintCall(g, x, args, rest);
    case Cast(c, n, d) => ParsePrintCast(g, c, n, d, rest);
    case Unary(_, d) => ParsePrintPrefix(g, e, d, rest);
    case Deref(d) => ParsePrintPrefix(g, e, d, rest);
    case AddressOf(d) => ParsePrintPrefix(g, e, d, rest);
    case PreStep(_, d) => ParsePrintPrefix(g, e, d, rest);
  }

  lemma ParsePrintName(g: Scope, x: nat, rest: seq<Token>)
    requires WellFormed(g, Ident(x)) && Separates(rest)
    ensures ParseUnit(g, Print(Ident(x)) + rest) == Ok(Ident(x), rest)
  {
    hide ParseExpr, ParseArgs;
    assert ([IdTok(x)] + rest)[1..] == rest;
  }

  lemma ParsePrintCall(g: Scope, x: nat, args: List<Expr>, rest: seq<Token>)
    requires Lookup(g, x).class_ in {Library, Function} && ParseArgs(g, PrintArgs(args) + rest) == Ok(args, rest)
    ensures ParseUnit(g, Print(Call(x, args)) + rest) == Ok(Call(x, args), rest)
  {
    hide PrintArgs, ParseArgs, ParseExpr;
    var ts := [IdTok(x), Tok(LPAREN)] + PrintArgs(args) + rest;
    assert ts[1..] == [Tok(LPAREN)] + PrintArgs(args) + rest;
    assert ts[2..] == PrintArgs(args) + rest;
  }

  lemma {:induction false} ParsePrintPrefix(g: Scope, e: Expr, d: Expr, rest: seq<Token>)
    requires WellFormed(g, e) && Separates(rest) && Kind(rest) < INC
    requires (e.Unary? || e.Deref? || e.AddressOf? || e.PreStep?) && e.e == d
    ensures ParseUnit(g, Print(e) + rest) == Ok(e, rest)
    decreases e, 0
  {
    hide Print, PrintAt, PrintNegated, ParseUnit, ParseExpr, ParsePrefix, Separates, PrefixKind, Kind;
    var operand := if e == Unary(Negate, d) then PrintNegated(d) else PrintAt(INC, d);
    PrintOfPrefix(e, d);
    PrefixMakes(g, e, d, rest);
    if e == Unary(Negate, d) {
      ParsePrintNegated(g, d, rest);
    } else {
      AtStarts(d);
      ParsePrintAt(g, INC, d, rest);
    }
    PrefixUnit(g, PrefixKind(e), d, operand, rest);
  }

  lemma PrintOfPrefix(e: Expr, d: Expr)
    requires (e.Unary? || e.Deref? || e.AddressOf? || e.PreStep?) && e.e == d
    ensures Print(e) == [Tok(PrefixKind(e))] + if e == Unary(Negate, d) then PrintNegated(d) else PrintAt(INC, d)
    ensures PrefixKind(e) in {MUL, AND, BANG, TILDE, ADD, SUB, INC, DEC}
    ensures (PrefixKind(e) == SUB ==> e == Unary(Negate, d))
  {
    hide PrintLeft, PrintAt, PrintArgs, PrintNegated, PrintType;
  }

  // The operator and its operand make the whole.
  lemma PrefixMakes(g: Scope, e: Expr, d: Expr, rest: seq<Token>)
    requires WellFormed(g, e) && (e.Unary? || e.Deref? || e.AddressOf? || e.PreStep?) && e.e == d
    ensures ParsePrefix(g, PrefixKind(e), d, rest) == Ok(e, rest)
  {
    if e.AddressOf? || e.PreStep? {
      LvalueEndsInLoad(g, d);
    }
    hide ExprCode, TypeOf, EndsInLoad, IsLvalue;
  }

  lemma AtStarts(d: Expr)
    ensures |PrintAt(INC, d)| > 0
  {
    PrintStarts(d);
    hide Print;
  }

  lemma ParsePrintConstant(g: Scope, e: Expr, rest: seq<Token>)
    requires (e.Num? || e.NegNum? || e.Str?) && Separates(rest)
    ensures ParseUnit(g, Print(e) + rest) == Ok(e, rest)
  {
    hide ParseExpr, ParseName, ParseSizeOf, ParseCast, ParsePrefix;
    match e
    case Num(v) => assert ([NumTok(v)] + rest)[1..] == rest;
    case Str(a) => assert ([StrTok(a)] + rest)[1..] == rest;
    case NegNum(v) =>
      assert ([Tok(SUB), NumTok(v)] + rest)[1..] == [NumTok(v)] + rest;
      assert ([NumTok(v)] + rest)[1..] == rest;
  }

  lemma ParsePrintSizeOf(g: Scope, isChar: bool, stars: nat, rest: seq<Token>)
    ensures ParseUnit(g, Print(SizeOf(isChar, stars)) + rest) == Ok(SizeOf(isChar, stars), rest)
  {
    hide ParseExpr, ParseName, ParseCast, ParsePrefix, PrintType, ParseSizeOf, SkipKind, CountKind;
    var ts := PrintType(isChar, stars) + rest;
    var whole := [Keyword(SIZEOF)] + PrintType(isChar, stars) + rest;
    assert whole[1..] == ts;
    ReadSizeOf(g, isChar, stars, rest);
    assert ParseUnit(g, whole) == ParseSizeOf(g, whole[1..]);
  }

  lemma ReadSizeOf(g: Scope, isChar: bool, stars: nat, rest: seq<Token>)
    ensures ParseSizeOf(g, PrintType(isChar, stars) + rest) == Ok(SizeOf(isChar, stars), rest)
  {
    var ts := PrintType(isChar, stars) + rest;
    ParseTypeName(isChar, stars, rest);
    hide PrintType, SkipKind, CountKind;
    assert ts[1..][1..] == ts[2..];
  }

  // A prefix operator takes the operand it is printed before.
  lemma PrefixUnit(g: Scope, k: int, d: Expr, operand: seq<Token>, rest: seq<Token>)
    requires k in {MUL, AND, BANG, TILDE, ADD, SUB, INC, DEC}
    requires |operand| > 0 && (k == SUB ==> !operand[0].NumTok?)
    requires ParseExpr(g, INC, operand + rest) == Ok(d, rest)
    ensures ParseUnit(g, [Tok(k)] + operand + rest) == ParsePrefix(g, k, d, rest)
  {
    hide ParseExpr, ParsePrefix;
    assert ([Tok(k)] + operand + rest)[1..] == operand + rest;
  }

  lemma {:induction false} ParsePrintCast(g: Scope, isChar: bool, stars: nat, d: Expr, rest: seq<Token>)
    requires WellFormed(g, d) && Separates(rest) && Kind(rest) < INC
    ensures ParseUnit(g, Print(Cast(isChar, stars, d)) + rest) == Ok(Cast(isChar, stars, d), rest)
    decreases Cast(isChar, stars, d), 0
  {
    hide Print, PrintAt, PrintType, ParseExpr, ParseOps, ParseSizeOf, ParseName, ParsePrefix, WellFormed, OuterLevel,
         Grip;
    var tail := PrintAt(INC, d) + rest;
    PrintOfCast(isChar, stars, d);
    var ts := PrintType(isChar, stars) + tail;
    assert PrintType(isChar, stars) + PrintAt(INC, d) + rest == ts;
    ParseTypeName(isChar, stars, tail);
    ParsePrintAt(g, INC, d, rest);
    assert ts[1..][1..] == ts[2..];
  }

  // A parenthesised tree is a unit.
  lemma {:induction false} ParseParens(g: Scope, e: Expr, rest: seq<Token>)
    requires WellFormed(g, e)
    ensures ParseUnit(g, Parens(Print(e)) + rest) == Ok(e, rest)
    decreases e, 3
  {
    hide Print, ParseUnit, ParseExpr, StartsExpr, WellFormed;
    var closing := [Tok(RPAREN)] + rest;
    PrintStarts(e);
    assert Parens(Print(e)) + rest == [Tok(LPAREN)] + (Print(e) + closing);
    assert closing[1..] == rest;
    Lowest(e);
    ParsePrint(g, ASSIGN, e, closing);
    OpsEnd(g, ASSIGN, e, closing);
    ParensUnit(g, e, Print(e), closing);
  }

  lemma Lowest(e: Expr)
    ensures ASSIGN <= OuterLevel(e) && ASSIGN <= Grip(e)
  {
  }

  // The climb ends before an operator below the level.
  lemma OpsEnd(g: Scope, level: int, e: Expr, rest: seq<Token>)
    requires Kind(rest) < level
    ensures ParseOps(g, level, e, rest) == Ok(e, rest)
  {
  }

  lemma ParensUnit(g: Scope, e: Expr, inner: seq<Token>, closing: seq<Token>)
    requires StartsExpr(inner) && ParseExpr(g, ASSIGN, inner + closing) == Ok(e, closing) && Kind(closing) == RPAREN
    ensures ParseUnit(g, [Tok(LPAREN)] + (inner + closing)) == Ok(e, closing[1..])
  {
    hide ParseExpr, ParseName, ParseSizeOf, ParseCast, ParsePrefix;
    assert ([Tok(LPAREN)] + (inner + closing))[1..] == inner + closing;
  }

  // An operand parsed at `level` ends before an operator that binds less.
  lemma {:induction false} ParsePrintAt(g: Scope, level: int, e: Expr, rest: seq<Token>)
    requires WellFormed(g, e) && IsLevel(level)
    requires Separates(rest) && Kind(rest) < level
    ensures ParseExpr(g, level, PrintAt(level, e) + rest) == Ok(e, rest)
    decreases e, 4
  {
    hide Print, ParseUnit, ParseExpr, ParseOps, WellFormed;
    OpsEnd(g, level, e, rest);
    if OuterLevel(e) < level {
      ParseParens(g, e, rest);
      UnitStarts(g, level, e, Parens(Print(e)) + rest, rest);
    } else {
      BelowGrip(e, level, Kind(rest));
      ParsePrint(g, level, e, rest);
    }
  }

  lemma BelowGrip(e: Expr, level: int, k: int)
    requires level <= OuterLevel(e) && k < level && IsLevel(level)
    ensures k < Grip(e)
  {
  }

  lemma {:induction false} ParsePrintNegated(g: Scope, e: Expr, rest: seq<Token>)
    requires WellFormed(g, e)
    requires Separates(rest) && Kind(rest) < INC
    ensures ParseExpr(g, INC, PrintNegated(e) + rest) == Ok(e, rest)
    ensures |PrintNegated(e)| > 0 && !PrintNegated(e)[0].NumTok?
    decreases e, 5
  {
    PrintStarts(e);
    var ts := PrintAt(INC, e);
    if ts[0].NumTok? {
      ParseParens(g, e, rest);
    } else {
      ParsePrintAt(g, INC, e, rest);
    }
  }

  // The operand to the left of an operator of kind `k` is read up to that operator.
  lemma {:induction false} ParsePrintLeft(g: Scope, level: int, e: Expr, k: int, rest: seq<Token>)
    requires WellFormed(g, e) && IsLevel(level) && level <= k
    ensures ParseExpr(g, level, PrintLeft(e, k) + ([Tok(k)] + rest)) == ParseOps(g, level, e, [Tok(k)] + rest)
    decreases e, 4
  {
    if Grip(e) <= k {
      ParseParens(g, e, [Tok(k)] + rest);
    } else {
      LeftOperandLevel(e, k, level);
      ParsePrint(g, level, e, [Tok(k)] + rest);
    }
  }

  lemma ParseTypeName(isChar: bool, stars: nat, rest: seq<Token>)
    ensures var ts := PrintType(isChar, stars) + rest;
      && Kind(ts) == LPAREN && Kind(ts[1..]) == (if isChar then CHAR else INT)
      && SkipKind(MUL, ts[2..]) == [Tok(RPAREN)] + rest && CountKind(MUL, ts[2..]) == stars
    ensures ([Tok(RPAREN)] + rest)[1..] == rest
  {
    var ts := PrintType(isChar, stars) + rest;
    assert ts[2..] == Stars(stars) + ([Tok(RPAREN)] + rest);
    SkipStars(stars, [Tok(RPAREN)] + rest);
  }

  lemma {:induction false} ParsePrintArgs(g: Scope, args: List<Expr>, rest: seq<Token>)
    requires WellFormedArgs(g, args)
    ensures ParseArgs(g, PrintArgs(args) + rest) == Ok(args, rest)
    decreases args, 4
  {
    hide Print, PrintAt, PrintArgs, ParseExpr, WellFormed, OuterLevel, Grip;
    match args
    case Nil =>
      assert PrintArgs(Nil) == [Tok(RPAREN)] by { PrintOfNoArgs(); }
      assert ([Tok(RPAREN)] + rest)[1..] == rest;
    case Cons(e, more) =>
      PrintOfArgs(e, more);
      PrintStarts(e);
      PrintAtLowest(e);
      var tail := PrintArgs(more) + rest;
      var closing := if more.Nil? then [Tok(RPAREN)] + rest else [Tok(COMMA)] + tail;
      assert PrintArgs(args) + rest == Print(e) + closing;
      ParsePrintAt(g, ASSIGN, e, closing);
      if more.Nil? {
        assert closing[1..] == rest;
      } else {
        assert closing[1..] == tail;
        ParsePrintArgs(g, more, rest);
      }
  }

  // The main result for expressions: the tokens printed for a tree are read back as that
  // tree, and not one token more.
  lemma ParseInvertsPrint(g: Scope, e: Expr, rest: seq<Token>)
    requires WellFormed(g, e) && Separates(rest) && Kind(rest) < ASSIGN
    ensures ParseExpr(g, ASSIGN, Print(e) + rest) == Ok(e, rest)
  {
    assert PrintAt(ASSIGN, e) == Print(e);
    ParsePrintAt(g, ASSIGN, e, rest);
  }

  // ----- statements -----

  lemma StmtStarts(s: Stmt)
    ensures |PrintStmt(s)| > 0 && Kind(PrintStmt(s)) !in {EOF, ELSE, RBRACE, INT, CHAR}
  {
    match s
    case Evaluate(e) => PrintStarts(e);
    case _ =>
  }

  lemma ParsePrintCondition(g: Scope, c: Expr, rest: seq<Token>)
    requires WellFormed(g, c)
    ensures ParseCondition(g, Parens(Print(c)) + rest) == Ok(c, rest)
  {
    hide Print, ParseExpr, WellFormed;
    var closing := [Tok(RPAREN)] + rest;
    ParseInvertsPrint(g, c, closing);
    assert (Parens(Print(c)) + rest)[1..] == Print(c) + closing;
    assert closing[1..] == rest;
  }

  lemma ParsePrintSimple(g: Scope, s: Stmt, rest: seq<Token>)
    requires WellFormedStmt(g, s) && (s.Return? || s.ReturnValue? || s.Empty? || s.Evaluate?)
    ensures ParseStmt(g, PrintStmt(s) + rest) == Ok(s, rest)
  {
    hide Print, ParseExpr, ParseCondition, ParseStmts, WellFormed;
    var ts := PrintStmt(s) + rest;
    var closing := [Tok(SEMI)] + rest;
    assert closing[1..] == rest;
    match s
    case Return =>
      assert ts[1..] == closing;
      assert ts[2..] == rest;
    case Empty => assert ts[1..] == rest;
    case ReturnValue(e) =>
      PrintStarts(e);
      ParseInvertsPrint(g, e, closing);
      assert ts[1..] == Print(e) + closing;
    case Evaluate(e) =>
      PrintStarts(e);
      ParseInvertsPrint(g, e, closing);
      assert ts == Print(e) + closing;
  }

  // Statements are read back as well; an `else` after one that ends in an open `if`
  // would be taken into it.
  lemma {:induction false} ParseInvertsPrintStmt(g: Scope, s: Stmt, rest: seq<Token>)
    requires WellFormedStmt(g, s) && (EndsOpen(s) ==> Kind(rest) != ELSE)
    ensures ParseStmt(g, PrintStmt(s) + rest) == Ok(s, rest)
    decreases s, 1
  {
    match s
    case If(c, s1) => ParsePrintIf(g, c, s1, rest);
    case IfElse(c, s1, s2) => ParsePrintIfElse(g, c, s1, s2, rest);
    case While(c, s1) => ParsePrintWhile(g, c, s1, rest);
    case Block(ss) =>
      var closing := [Tok(RBRACE)] + rest;
      assert (PrintStmt(s) + rest)[1..] == PrintStmts(ss) + closing;
      assert closing[1..] == rest;
      hide PrintStmts, WellFormedStmts, ParseStmts;
      ParseInvertsPrintStmts(g, ss, closing);
    case _ => ParsePrintSimple(g, s, rest);
  }

  lemma {:induction false} ParsePrintIf(g: Scope, c: Expr, s: Stmt, rest: seq<Token>)
    requires WellFormed(g, c) && WellFormedStmt(g, s) && Kind(rest) != ELSE
    ensures ParseStmt(g, PrintStmt(If(c, s)) + rest) == Ok(If(c, s), rest)
    decreases If(c, s), 0
  {
    var tail := PrintStmt(s) + rest;
    var ts := PrintStmt(If(c, s)) + rest;
    assert ts[0] == Keyword(IF) && ts[1..] == Parens(Print(c)) + tail by {
      hide Print, ParseStmt, WellFormed, WellFormedStmt;
    }
    hide Print, PrintStmt, ParseCondition, WellFormed, WellFormedStmt;
    ParsePrintCondition(g, c, tail);
    ParseInvertsPrintStmt(g, s, rest);
  }

  lemma {:induction false} ParsePrintWhile(g: Scope, c: Expr, s: Stmt, rest: seq<Token>)
    requires WellFormed(g, c) && WellFormedStmt(g, s) && (EndsOpen(s) ==> Kind(rest) != ELSE)
    ensures ParseStmt(g, PrintStmt(While(c, s)) + rest) == Ok(While(c, s), rest)
    decreases While(c, s), 0
  {
    var tail := PrintStmt(s) + rest;
    var ts := PrintStmt(While(c, s)) + rest;
    assert ts[0] == Keyword(WHILE) && ts[1..] == Parens(Print(c)) + tail by {
      hide Print, ParseStmt, WellFormed, WellFormedStmt, EndsOpen;
    }
    hide Print, PrintStmt, ParseCondition, WellFormed, WellFormedStmt, EndsOpen;
    ParsePrintCondition(g, c, tail);
    ParseInvertsPrintStmt(g, s, rest);
  }

  lemma {:induction false} ParsePrintIfElse(g: Scope, c: Expr, s: Stmt, t: Stmt, rest: seq<Token>)
    requires WellFormed(g, c) && WellFormedStmt(g, s) && WellFormedStmt(g, t) && !EndsOpen(s)
    requires EndsOpen(t) ==> Kind(rest) != ELSE
    ensures ParseStmt(g, PrintStmt(IfElse(c, s, t)) + rest) == Ok(IfElse(c, s, t), rest)
    decreases IfElse(c, s, t), 0
  {
    var last := PrintStmt(t) + rest;
    var middle := [Keyword(ELSE)] + last;
    var tail := PrintStmt(s) + middle;
    var ts := PrintStmt(IfElse(c, s, t)) + rest;
    assert PrintStmt(IfElse(c, s, t))
        == [Keyword(IF)] + Parens(Print(c)) + PrintStmt(s) + [Keyword(ELSE)] + PrintStmt(t);
    hide *;
    Regroup([Keyword(IF)], Parens(Print(c)), PrintStmt(s), [Keyword(ELSE)], PrintStmt(t), rest);
    assert ts[0] == Keyword(IF) && ts[1..] == Parens(Print(c)) + tail;
    assert middle[1..] == last;
    ParsePrintCondition(g, c, tail);
    ParseInvertsPrintStmt(g, s, middle);
    ParseInvertsPrintStmt(g, t, rest);
    IfElseSteps(g, c, s, t, ts, tail, middle, rest);
  }

  lemma Regroup<T>(a: seq<T>, b: seq<T>, c: seq<T>, d: seq<T>, e: seq<T>, f: seq<T>)
    ensures a + b + c + d + e + f == a + (b + (c + (d + (e + f))))
  {
  }

  lemma IfElseSteps(g: Scope, c: Expr, s: Stmt, t: Stmt,
                    ts: seq<Token>, tail: seq<Token>, middle: seq<Token>, rest: seq<Token>)
    requires |ts| > 0 && ts[0] == Keyword(IF) && ParseCondition(g, ts[1..]) == Ok(c, tail)
    requires ParseStmt(g, tail) == Ok(s, middle)
    requires |middle| > 0 && middle[0] == Keyword(ELSE) && ParseStmt(g, middle[1..]) == Ok(t, rest)
    ensures ParseStmt(g, ts) == Ok(IfElse(c, s, t), rest)
  {
    hide ParseCondition, ParseExpr, ParseStmts;
  }

  lemma {:induction false} ParseInvertsPrintStmts(g: Scope, ss: List<Stmt>, closing: seq<Token>)
    requires WellFormedStmts(g, ss) && Kind(closing) == RBRACE
    ensures ParseStmts(g, PrintStmts(ss) + closing) == Ok(ss, closing)
    decreases ss, 2
  {
    match ss
    case Nil => assert PrintStmts(ss) + closing == closing;
    case Cons(s, rest) =>
      var tail := PrintStmts(rest) + closing;
      StmtStarts(s);
      if rest.Cons? {
        StmtStarts(rest.head);
      } else {
        assert tail == closing;
      }
      assert PrintStmts(ss) + closing == PrintStmt(s) + tail;
      ParseInvertsPrintStmt(g, s, tail);
      ParseInvertsPrintStmts(g, rest, closing);
  }

  // ----- the lvalue test looks only at one word -----

  // `9 = x`: the immediate 9 is the opcode of a load, so the test passes and the operand
  // of the constant is overwritten.
  lemma ConstantAsTarget(g: Scope, x: nat)
    requires Lookup(g, x).class_ == Local
    ensures ParseExpr(g, ASSIGN, [NumTok(9), Tok(ASSIGN), IdTok(x), Tok(SEMI)])
         == Ok(Assign(Num(9), Ident(x)), [Tok(SEMI)])
    ensures ExprCode(g, Assign(Num(9), Ident(x)))[..2] == [Op(M.IMM), Op(M.PUSH)]
  {
    var ts := [NumTok(9), Tok(ASSIGN), IdTok(x), Tok(SEMI)];
    assert ts[1..] == [Tok(ASSIGN), IdTok(x), Tok(SEMI)];
    assert ts[1..][1..] == [IdTok(x), Tok(SEMI)];
    assert ts[1..][1..][1..] == [Tok(SEMI)];
    assert [IdTok(x), Tok(SEMI)] == Print(Ident(x)) + [Tok(SEMI)];
    ParseInvertsPrint(g, Ident(x), [Tok(SEMI)]);
    assert ParseOp(g, Num(9), ts[1..]) == Ok(Assign(Num(9), Ident(x)), [Tok(SEMI)]);
    assert ParseUnit(g, ts) == Ok(Num(9), ts[1..]);
    OpsContinue(g, ASSIGN, Num(9), ts[1..], Assign(Num(9), Ident(x)), [Tok(SEMI)]);
  }
}
