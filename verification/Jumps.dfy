/**
 * Where jumps lead: the target of every jump is the start of an instruction of the same
 * block, or the first word after the block.
 */
module Jumps {
  import opened Words
  import opened Syntax
  import opened Codegen
  import opened CodeShape
  import opened Grammar
  import opened Printer
  import Preservation
  import M = Machine

  // Reading the block from its start, operands are read exactly after the opcodes that
  // take one.
  predicate Decodes(code: Code) {
    && (|code| > 0 ==> code[0].Op?)
    && (forall i :: 0 <= i < |code| && code[i].Op? && M.HasOperand(code[i].w) ==> i + 1 < |code| && !code[i + 1].Op?)
    && (forall i :: 0 <= i < |code| && !(code[i].Op? && M.HasOperand(code[i].w)) && i + 1 < |code| ==> code[i + 1].Op?)
  }

  predicate IsJump(item: Item) {
    item.Op? && item.w in {M.JZ, M.JNZ, M.JMP}
  }

  // The jump whose operand is word `i` leads to a boundary of the block.
  predicate LeadsInside(code: Code, i: nat)
    requires i < |code| && code[i].Rel?
  {
    var target := i + code[i].k;
    0 <= target <= |code| && (target < |code| ==> code[target].Op?) && i > 0 && IsJump(code[i - 1])
  }

  predicate GoodItem(code: Code, i: nat)
    requires i < |code|
  {
    && (code[i].Rel? ==> LeadsInside(code, i))
    && (IsJump(code[i]) ==> i + 1 < |code| && code[i + 1].Rel?)
  }

  // Every jump of the block is relative, and leads inside.
  predicate Closed(code: Code) {
    Decodes(code) && forall i :: 0 <= i < |code| ==> GoodItem(code, i)
  }

  lemma DecodesThen(a: Code, b: Code)
    requires Decodes(a) && Decodes(b)
    ensures Decodes(a + b)
  {
    var c := a + b;
    assert forall i :: 0 <= i < |a| ==> c[i] == a[i];
    assert forall i {:trigger c[i]} :: |a| <= i < |c| ==> c[i] == b[i - |a|];
    forall i | 0 <= i < |c| && c[i].Op? && M.HasOperand(c[i].w)
      ensures i + 1 < |c| && !c[i + 1].Op?
    {
      if i >= |a| { assert !b[i - |a| + 1].Op?; }
    }
    forall i | 0 <= i < |c| && !(c[i].Op? && M.HasOperand(c[i].w)) && i + 1 < |c|
      ensures c[i + 1].Op?
    {
      if i + 1 == |a| { assert c[i + 1] == b[0]; }
      else if i >= |a| { assert b[i - |a| + 1].Op?; }
    }
  }

  // The jumps of a closed block stay good when the block becomes part of a larger one.
  lemma Inner(pre: Code, b: Code, post: Code, i: nat)
    requires Closed(b) && (|post| > 0 ==> post[0].Op?) && i < |b|
    ensures GoodItem(pre + b + post, |pre| + i)
  {
    var c := pre + b + post;
    assert GoodItem(b, i);
    assert c[|pre| + i] == b[i];
    if b[i].Rel? {
      var target := i + b[i].k;
      assert c[|pre| + i - 1] == b[i - 1];
      if target < |b| {
        assert c[|pre| + target] == b[target];
      } else if |post| > 0 {
        assert c[|pre| + target] == post[0];
      }
    }
    if IsJump(b[i]) {
      assert c[|pre| + i + 1] == b[i + 1];
    }
  }

  lemma ClosedThen(a: Code, b: Code)
    requires Closed(a) && Closed(b)
    ensures Closed(a + b)
  {
    var c := a + b;
    DecodesThen(a, b);
    assert [] + a + b == c && a + b + [] == c;
    assert |b| > 0 ==> b[0].Op?;
    hide Decodes, GoodItem;
    forall i | 0 <= i < |c|
      ensures GoodItem(c, i)
    {
      if i < |a| { Inner([], a, b, i); } else { Inner(a, b, [], i - |a|); }
    }
  }

  // A block, a jump to `after` words past the next block, the next block, and the rest.
  lemma JumpDecodes(a: Code, jump: Word, k: int, b: Code, rest: Code)
    requires Closed(a) && Closed(b) && jump in {M.JZ, M.JNZ, M.JMP} && Decodes(rest)
    ensures Decodes(a + [Op(jump), Rel(k)] + b + rest)
  {
    var mid := [Op(jump), Rel(k)];
    assert Decodes(mid);
    hide Decodes, GoodItem;
    DecodesThen(a, mid);
    DecodesThen(a + mid, b);
    DecodesThen(a + mid + b, rest);
  }

  lemma JumpOver(a: Code, jump: Word, b: Code, after: nat, rest: Code)
    requires Closed(a) && Closed(b) && jump in {M.JZ, M.JNZ, M.JMP}
    requires Decodes(rest) && after <= |rest| && (after < |rest| ==> rest[after].Op?)
    ensures var c := a + [Op(jump), Rel(|b| + 1 + after)] + b + rest;
      && Decodes(c)
      && forall i :: 0 <= i < |a| + 2 + |b| ==> GoodItem(c, i)
  {
    hide Decodes, GoodItem;
    var mid := [Op(jump), Rel(|b| + 1 + after)];
    var c := a + mid + b + rest;
    JumpDecodes(a, jump, |b| + 1 + after, b, rest);
    JumpGood(a, jump, b, after, rest);
    Starts(b);
    Starts(rest);
    assert c == [] + a + (mid + b + rest) && c == (a + mid) + b + rest;
    forall i | 0 <= i < |a| + 2 + |b|
      ensures GoodItem(c, i)
    {
      if i < |a| { Inner([], a, mid + b + rest, i); }
      else if i >= |a| + 2 { Inner(a + mid, b, rest, i - |a| - 2); }
    }
  }

  lemma Starts(code: Code)
    requires Decodes(code)
    ensures |code| > 0 ==> code[0].Op?
  {
  }

  lemma JumpGood(a: Code, jump: Word, b: Code, after: nat, rest: Code)
    requires jump in {M.JZ, M.JNZ, M.JMP} && after <= |rest| && (after < |rest| ==> rest[after].Op?)
    ensures var c := a + [Op(jump), Rel(|b| + 1 + after)] + b + rest; GoodItem(c, |a|) && GoodItem(c, |a| + 1)
  {
    var mid := [Op(jump), Rel(|b| + 1 + after)];
    var c := a + mid + b + rest;
    assert c[|a|] == mid[0] && c[|a| + 1] == mid[1];
    assert after < |rest| ==> c[|a| + 2 + |b| + after] == rest[after];
  }

  lemma ShortClosed(jump: Word, a: Code, b: Code)
    requires Closed(a) && Closed(b) && jump in {M.JZ, M.JNZ, M.JMP}
    ensures Closed(ShortCode(jump, a, b))
  {
    JumpOver(a, jump, b, 0, []);
    assert ShortCode(jump, a, b) == a + [Op(jump), Rel(|b| + 1)] + b + [];
  }

  lemma BranchClosed(c: Code, a: Code, b: Code)
    requires Closed(c) && Closed(a) && Closed(b)
    ensures Closed(BranchCode(c, a, b))
  {
    var rest := [Op(M.JMP), Rel(|b| + 1)] + b;
    var code := BranchCode(c, a, b);
    var front := c + [Op(M.JZ), Rel(|a| + 3)] + a;
    DecodesThen([Op(M.JMP), Rel(|b| + 1)], b);
    assert |b| > 0 ==> rest[2] == b[0] && b[0].Op?;
    JumpOver(c, M.JZ, a, 2, rest);
    assert code == front + [Op(M.JMP), Rel(|b| + 1)] + b == front + rest;
    assert code[|front|] == Op(M.JMP) && code[|front| + 1] == Rel(|b| + 1);
    assert GoodItem(code, |front|) && GoodItem(code, |front| + 1);
    hide Decodes, GoodItem;
    forall i | |front| + 2 <= i < |code|
      ensures GoodItem(code, i)
    {
      assert code == (front + [Op(M.JMP), Rel(|b| + 1)]) + b + [];
      Inner(front + [Op(M.JMP), Rel(|b| + 1)], b, [], i - |front| - 2);
    }
  }

  lemma LoopClosed(c: Code, body: Code)
    requires Closed(c) && Closed(body) && |c| > 0
    ensures Closed(LoopCode(c, body))
  {
    var back := -(|c| + 2 + |body| + 1);
    var rest := [Op(M.JMP), Rel(back)];
    var code := LoopCode(c, body);
    assert Decodes(rest);
    JumpOver(c, M.JZ, body, 2, rest);
    assert code == c + [Op(M.JZ), Rel(|body| + 3)] + body + rest;
    var n := |c| + 2 + |body|;
    assert code[n] == Op(M.JMP) && code[n + 1] == Rel(back) && code[0] == c[0];
    assert GoodItem(code, n) && GoodItem(code, n + 1);
  }

  // A block without jumps.
  predicate Straight(code: Code) {
    Decodes(code) && forall i :: 0 <= i < |code| ==> !code[i].Rel? && !IsJump(code[i])
  }

  lemma StraightClosed(code: Code)
    requires Straight(code)
    ensures Closed(code)
  {
  }

  // A closed block followed by words without jumps.
  lemma ClosedStraight(a: Code, tail: Code)
    requires Closed(a) && Straight(tail)
    ensures Closed(a + tail)
  {
    StraightClosed(tail);
    ClosedThen(a, tail);
  }

  // Two operands, the first one pushed.
  lemma InfixClosed(a: Code, b: Code, tail: Code)
    requires Closed(a) && Closed(b) && Straight(tail)
    ensures Closed(a + [Op(M.PUSH)] + b + tail)
  {
    assert Straight([Op(M.PUSH)]);
    hide Closed, Straight;
    ClosedStraight(a, [Op(M.PUSH)]);
    ClosedThen(a + [Op(M.PUSH)], b);
    ClosedStraight(a + [Op(M.PUSH)] + b, tail);
  }

  lemma StraightThen(a: Code, b: Code)
    requires Straight(a) && Straight(b)
    ensures Straight(a + b)
  {
    DecodesThen(a, b);
    assert forall i {:trigger (a + b)[i]} :: 0 <= i < |a + b| ==> (a + b)[i] == if i < |a| then a[i] else b[i - |a|];
  }

  lemma ScaleStraight(t: int)
    ensures Straight(Scale(t)) && Straight(Scale(t) + [Op(M.ADD)]) && Straight(Scale(t) + [Op(M.SUB)])
  {
    assert Straight([Op(M.ADD)]) && Straight([Op(M.SUB)]) && Straight(Scale(t));
    hide Straight, Scale;
    StraightThen(Scale(t), [Op(M.ADD)]);
    StraightThen(Scale(t), [Op(M.SUB)]);
  }

  lemma StepStraight(load: Word, t: int, up: bool)
    requires load in {M.LI, M.LC}
    ensures Straight(StepCode(load, t, up)) && Straight(UndoStep(t, up))
  {
  }

  lemma TailStraight(op: BinOp, ta: int, tb: int)
    ensures Straight(BinaryTail(op, ta, tb))
  {
    hide Scale, Straight, Opcode;
    ScaleStraight(ta);
    if op == BSub && ta > PTR_TYPE && ta == tb {
      QuotientStraight();
    } else if op != BAdd && op != BSub {
      OpcodeStraight(op);
    }
  }

  lemma QuotientStraight()
    ensures Straight([Op(M.SUB), Op(M.PUSH), Op(M.IMM), Arg(4), Op(M.DIV)])
  {
  }

  lemma OpcodeStraight(op: BinOp)
    ensures Straight([Op(Opcode(op))])
  {
    assert M.OR <= Opcode(op) <= M.MOD;
    hide Opcode;
  }

  lemma UnaryStraight()
    ensures Straight([Op(M.PUSH), Op(M.IMM), Arg(0), Op(M.EQ)])
    ensures Straight([Op(M.PUSH), Op(M.IMM), Arg(0xFFFF_FFFF), Op(M.XOR)])
    ensures Straight([Op(M.IMM), Arg(0xFFFF_FFFF), Op(M.PUSH)]) && Straight([Op(M.MUL)])
  {
  }

  lemma UnaryClosed(g: Scope, op: UnOp, e: Expr)
    requires Closed(ExprCode(g, e))
    ensures Closed(ExprCode(g, Unary(op, e)))
  {
    var c := ExprCode(g, e);
    CodeOfUnary(g, e);
    hide ExprCode, Closed, Straight;
    UnaryStraight();
    match op
    case Not => ClosedStraight(c, [Op(M.PUSH), Op(M.IMM), Arg(0), Op(M.EQ)]);
    case Complement => ClosedStraight(c, [Op(M.PUSH), Op(M.IMM), Arg(0xFFFF_FFFF), Op(M.XOR)]);
    case Plus =>
    case Negate =>
      StraightClosed([Op(M.IMM), Arg(0xFFFF_FFFF), Op(M.PUSH)]);
      ClosedThen([Op(M.IMM), Arg(0xFFFF_FFFF), Op(M.PUSH)], c);
      ClosedStraight([Op(M.IMM), Arg(0xFFFF_FFFF), Op(M.PUSH)] + c, [Op(M.MUL)]);
  }

  // The code of a constant or a name has no jumps.
  lemma LeafClosed(g: Scope, e: Expr)
    requires e.Num? || e.NegNum? || e.Str? || e.SizeOf? || e.Ident?
    ensures Closed(ExprCode(g, e)) && (IsLvalue(g, e) ==> Closed(DropLast(ExprCode(g, e))))
  {
    hide Closed;
    var c := ExprCode(g, e);
    assert Straight(c);
    StraightClosed(c);
    if IsLvalue(g, e) {
      assert Straight(DropLast(c));
      StraightClosed(DropLast(c));
    }
  }

  // An lvalue is its address part and a load.
  lemma LvalueClosed(g: Scope, e: Expr)
    requires IsLvalue(g, e) && Closed(DropLast(ExprCode(g, e)))
    ensures Closed(ExprCode(g, e))
  {
    Preservation.LvalueCode(g, e);
    var load := LoadOp(TypeOf(g, e));
    assert Straight([Op(load)]);
    hide Closed, ExprCode, DropLast, Straight;
    ClosedStraight(DropLast(ExprCode(g, e)), [Op(load)]);
  }

  // In the code of every well-formed expression, all jumps stay inside.
  lemma {:induction false} ExprClosed(g: Scope, e: Expr)
    requires GoodSymbols(g.symbols) && WellFormed(g, e)
    ensures Closed(ExprCode(g, e)) && (IsLvalue(g, e) ==> Closed(DropLast(ExprCode(g, e))))
    decreases e, 1
  {
    hide Closed, TypeOf, GoodSymbols, ToWord;
    match e
    case Num(_) => LeafClosed(g, e);
    case NegNum(_) => LeafClosed(g, e);
    case Str(_) => LeafClosed(g, e);
    case SizeOf(_, _) => LeafClosed(g, e);
    case Ident(_) => LeafClosed(g, e);
    case Call(x, args) => CallClosed(g, x, args);
    case Cast(_, _, d) => ExprClosed(g, d);
    case Deref(d) =>
      ExprClosed(g, d);
      assert DropLast(ExprCode(g, e)) == ExprCode(g, d);
      hide Closed, ExprCode;
      LvalueClosed(g, e);
    case AddressOf(d) => ExprClosed(g, d);
    case Unary(op, d) => ExprClosed(g, d); hide Closed, ExprCode; UnaryClosed(g, op, d);
    case PreStep(up, d) => ExprClosed(g, d); hide Closed, ExprCode; StepClosed(g, up, d);
    case PostStep(up, d) => ExprClosed(g, d); hide Closed, ExprCode; StepClosed(g, up, d);
    case Index(a, i) => ExprClosed(g, a); ExprClosed(g, i); hide Closed, ExprCode; IndexClosed(g, a, i);
    case Assign(l, r) => ExprClosed(g, l); ExprClosed(g, r); hide Closed, ExprCode; AssignClosed(g, l, r);
    case Conditional(c, a, b) =>
      ExprClosed(g, c); ExprClosed(g, a); ExprClosed(g, b);
      CodeOfConditional(g, c, a, b);
      hide Closed, ExprCode;
      BranchClosed(ExprCode(g, c), ExprCode(g, a), ExprCode(g, b));
    case LogicalOr(a, b) =>
      ExprClosed(g, a); ExprClosed(g, b);
      CodeOfLogical(g, a, b);
      hide Closed, ExprCode;
      ShortClosed(M.JNZ, ExprCode(g, a), ExprCode(g, b));
    case LogicalAnd(a, b) =>
      ExprClosed(g, a); ExprClosed(g, b);
      CodeOfLogical(g, a, b);
      hide Closed, ExprCode;
      ShortClosed(M.JZ, ExprCode(g, a), ExprCode(g, b));
    case Binary(op, a, b) =>
      ExprClosed(g, a); ExprClosed(g, b);
      CodeOfBinary(g, op, a, b);
      hide Closed, ExprCode, Straight;
      TailStraight(op, TypeOf(g, a), TypeOf(g, b));
      InfixClosed(ExprCode(g, a), ExprCode(g, b), BinaryTail(op, TypeOf(g, a), TypeOf(g, b)));
  }

  lemma StepClosed(g: Scope, up: bool, e: Expr)
    requires IsLvalue(g, e) && Closed(DropLast(ExprCode(g, e)))
    ensures Closed(ExprCode(g, PreStep(up, e))) && Closed(ExprCode(g, PostStep(up, e)))
  {
    Preservation.LvalueCode(g, e);
    CodeOfStep(g, up, e);
    var t, load := TypeOf(g, e), LoadOp(TypeOf(g, e));
    var c := DropLast(ExprCode(g, e));
    StepStraight(load, t, up);
    hide Closed, ExprCode, Straight, DropLast, StepCode, UndoStep, LastWord;
    ClosedStraight(c, StepCode(load, t, up));
    ClosedStraight(c + StepCode(load, t, up), UndoStep(t, up));
  }

  lemma IndexClosed(g: Scope, a: Expr, i: Expr)
    requires Closed(ExprCode(g, a)) && Closed(ExprCode(g, i))
    ensures Closed(ExprCode(g, Index(a, i))) && Closed(DropLast(ExprCode(g, Index(a, i))))
  {
    var t := TypeOf(g, a);
    var tail := Scale(t) + [Op(M.ADD)];
    CodeOfIndex(g, a, i);
    ScaleStraight(t);
    var code := ExprCode(g, a) + [Op(M.PUSH)] + ExprCode(g, i) + tail;
    assert ExprCode(g, Index(a, i)) == code + [Op(LoadOp(t - PTR_TYPE))];
    assert DropLast(code + [Op(LoadOp(t - PTR_TYPE))]) == code;
    hide Closed, ExprCode, Straight, DropLast, Scale;
    InfixClosed(ExprCode(g, a), ExprCode(g, i), tail);
    LvalueClosed(g, Index(a, i));
  }

  lemma AssignClosed(g: Scope, l: Expr, r: Expr)
    requires Closed(DropLast(ExprCode(g, l))) && Closed(ExprCode(g, r))
    ensures Closed(ExprCode(g, Assign(l, r)))
  {
    CodeOfAssign(g, l, r);
    assert Straight([Op(StoreOp(TypeOf(g, l)))]);
    hide Closed, ExprCode, Straight, DropLast;
    InfixClosed(DropLast(ExprCode(g, l)), ExprCode(g, r), [Op(StoreOp(TypeOf(g, l)))]);
  }

  lemma {:induction false} CallClosed(g: Scope, x: nat, args: List<Expr>)
    requires GoodSymbols(g.symbols) && WellFormed(g, Call(x, args))
    ensures Closed(ExprCode(g, Call(x, args)))
    decreases Call(x, args), 0
  {
    var tail := CallTail(Lookup(g, x), Count(args));
    hide Closed, ExprCode, ArgsCode, Straight, CallTail, GoodSymbols;
    CodeOfCall(g, x, args);
    CallStraight(g, x, Count(args));
    ArgsClosed(g, args);
    ClosedStraight(ArgsCode(g, args), tail);
  }

  lemma CallStraight(g: Scope, x: nat, n: nat)
    requires GoodSymbols(g.symbols) && Lookup(g, x).class_ in {Library, Function}
    ensures Straight(CallTail(Lookup(g, x), n))
  {
    hide ToWord;
  }

  lemma {:induction false} ArgsClosed(g: Scope, args: List<Expr>)
    requires GoodSymbols(g.symbols) && WellFormedArgs(g, args)
    ensures Closed(ArgsCode(g, args))
    decreases args, 2
  {
    match args
    case Nil =>
    case Cons(e, rest) =>
      ExprClosed(g, e);
      ArgsClosed(g, rest);
      assert ArgsCode(g, args) == ExprCode(g, e) + [Op(M.PUSH)] + ArgsCode(g, rest);
      assert Straight([Op(M.PUSH)]);
      hide Closed, ExprCode, ArgsCode, Straight;
      ClosedStraight(ExprCode(g, e), [Op(M.PUSH)]);
      ClosedThen(ExprCode(g, e) + [Op(M.PUSH)], ArgsCode(g, rest));
  }

  // In the code of every well-formed statement, all jumps lead to an instruction of the
  // statement or to the first word after it.
  lemma {:induction false} StmtClosed(g: Scope, s: Stmt)
    requires GoodSymbols(g.symbols) && WellFormedStmt(g, s)
    ensures Closed(StmtCode(g, s))
    decreases s, 0
  {
    match s
    case If(c, s1) =>
      ExprClosed(g, c); StmtClosed(g, s1);
      CodeOfBranches(g, c, s1, s1);
      hide Closed, ExprCode, StmtCode;
      ShortClosed(M.JZ, ExprCode(g, c), StmtCode(g, s1));
    case IfElse(c, s1, s2) =>
      ExprClosed(g, c); StmtClosed(g, s1); StmtClosed(g, s2);
      CodeOfBranches(g, c, s1, s2);
      hide Closed, ExprCode, StmtCode;
      BranchClosed(ExprCode(g, c), StmtCode(g, s1), StmtCode(g, s2));
    case While(c, s1) =>
      ExprClosed(g, c); StmtClosed(g, s1);
      CodeOfBranches(g, c, s1, s1);
      CodeNotEmpty(g, c);
      hide Closed, ExprCode, StmtCode;
      LoopClosed(ExprCode(g, c), StmtCode(g, s1));
    case Block(ss) => StmtsClosed(g, ss);
    case Return => StraightClosed([Op(M.LEV)]);
    case ReturnValue(e) =>
      ExprClosed(g, e);
      assert Straight([Op(M.LEV)]);
      hide Closed, ExprCode, Straight;
      ClosedStraight(ExprCode(g, e), [Op(M.LEV)]);
    case Empty =>
    case Evaluate(e) => ExprClosed(g, e);
  }

  lemma CodeNotEmpty(g: Scope, e: Expr)
    requires GoodSymbols(g.symbols) && WellFormed(g, e)
    ensures |ExprCode(g, e)| > 0
  {
    AcceptedWellFormed(g, e);
    ExprShaped(g, e);
  }

  // The checks of the compiler accept every well-formed expression.
  lemma {:induction false} AcceptedWellFormed(g: Scope, e: Expr)
    requires WellFormed(g, e)
    ensures Accepted(g, e)
  {
    hide ExprCode;
    ParseInvertsPrint(g, e, []);
  }

  lemma {:induction false} StmtsClosed(g: Scope, ss: List<Stmt>)
    requires GoodSymbols(g.symbols) && WellFormedStmts(g, ss)
    ensures Closed(StmtsCode(g, ss))
    decreases ss, 1
  {
    match ss
    case Nil =>
    case Cons(s, rest) =>
      StmtClosed(g, s);
      StmtsClosed(g, rest);
      assert StmtsCode(g, ss) == StmtCode(g, s) + StmtsCode(g, rest);
      hide Closed, StmtCode, StmtsCode;
      ClosedThen(StmtCode(g, s), StmtsCode(g, rest));
  }

  // And so do the jumps of a whole function.
  lemma FunctionClosed(g: Scope, locals: nat, body: List<Stmt>)
    requires GoodSymbols(g.symbols) && WellFormedStmts(g, body)
    ensures Closed(FunctionCode(g, locals, body))
  {
    var enter := [Op(M.ENT), Arg(ToWord(locals))];
    assert Straight(enter) && Straight([Op(M.LEV)]);
    hide Closed, StmtsCode, Straight, ToWord;
    StmtsClosed(g, body);
    StraightClosed(enter);
    ClosedThen(enter, StmtsCode(g, body));
    ClosedStraight(enter + StmtsCode(g, body), [Op(M.LEV)]);
  }
}
