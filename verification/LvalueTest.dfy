/**
 * The compiler takes an expression for an lvalue when the last word it has emitted reads as
 * a load. Which expressions pass that test, exactly, and what becomes of those that should
 * not.
 */
module LvalueTest {
  import opened Words
  import opened Syntax
  import opened Codegen
  import opened Grammar
  import opened CodeShape
  import opened Printer
  import Jumps
  import M = Machine

  predicate IsLoad(w: Word) { w == M.LI || w == M.LC }

  function OneIf(b: bool): nat { if b then 1 else 0 }

  // How many words at the end of the code of an expression read as loads, by its form: a
  // constant, an address or a count may happen to be the number of a load.
  function LoadsAtEnd(g: Scope, e: Expr): nat {
    match e
    case Num(v) => OneIf(IsLoad(v))
    case NegNum(v) => OneIf(IsLoad(ToWord(-(v as int))))
    case Str(a) => OneIf(IsLoad(a))
    case Ident(x) =>
      var s := Lookup(g, x);
      if s.class_ == Enumerator then OneIf(IsLoad(s.value))
      else if s.class_ == Local then 1 + OneIf(IsLoad(ToWord(g.indexOfBp - Signed(s.value))))
      else 1 + OneIf(IsLoad(s.value))
    case Call(x, args) =>
      if args.Cons? then OneIf(IsLoad(ToWord(Count(args))))
      else OneIf(Lookup(g, x).class_ != Library && IsLoad(Lookup(g, x).value))
    case Cast(_, _, e) => LoadsAtEnd(g, e)
    case Deref(e) => 1 + LoadsAtEnd(g, e)
    case AddressOf(e) => if LoadsAtEnd(g, e) == 0 then 0 else LoadsAtEnd(g, e) - 1
    case Unary(op, e) => if op == Plus then LoadsAtEnd(g, e) else 0
    case Index(_, _) => 1
    case Conditional(_, _, b) => LoadsAtEnd(g, b)
    case LogicalOr(_, b) => LoadsAtEnd(g, b)
    case LogicalAnd(_, b) => LoadsAtEnd(g, b)
    case _ => 0
  }

  // The same number, counted in a block.
  function TrailingLoads(code: Code): nat {
    if EndsInLoad(code) then 1 + TrailingLoads(DropLast(code)) else 0
  }

  lemma {:induction false} LoadsBehind(a: Code, b: Code)
    requires TrailingLoads(b) < |b|
    ensures TrailingLoads(a + b) == TrailingLoads(b)
    decreases |b|
  {
    assert (a + b)[|a + b| - 1] == b[|b| - 1];
    if EndsInLoad(b) {
      assert DropLast(a + b) == a + DropLast(b);
      LoadsBehind(a, DropLast(b));
    }
  }

  lemma LoadBehind(a: Code, w: Word)
    requires IsLoad(w)
    ensures TrailingLoads(a + [Op(w)]) == 1 + TrailingLoads(a)
  {
    assert DropLast(a + [Op(w)]) == a;
  }

  // A block starts with a plain opcode, so it does not consist of loads.
  lemma {:induction false} FewLoads(code: Code)
    requires |code| > 0 && PlainOp(code[0])
    ensures TrailingLoads(code) < |code|
    decreases |code|
  {
    if EndsInLoad(code) {
      FewLoads(DropLast(code));
    }
  }

  lemma NoLoadBehind(a: Code, i: Item)
    requires i.Op? && !IsLoad(i.w)
    ensures TrailingLoads(a + [i]) == 0
  {
  }

  lemma ShapedBehind(a: Code, b: Code)
    requires Shaped(b)
    ensures TrailingLoads(a + b) == TrailingLoads(b)
  {
    FewLoads(b);
    LoadsBehind(a, b);
  }

  // The form of an accepted expression says how many loads its code ends in.
  lemma {:induction false} LoadsAreCounted(g: Scope, e: Expr)
    requires GoodSymbols(g.symbols) && Accepted(g, e)
    ensures TrailingLoads(ExprCode(g, e)) == LoadsAtEnd(g, e)
  {
    hide Shaped, TrailingLoads, GoodSymbols, ExprCode, TypeOf, ToWord;
    match e
    case Cast(c, n, e1) =>
      LoadsAreCounted(g, e1);
      CodeOfCast(g, c, n, e1);
    case Deref(e1) =>
      LoadsAreCounted(g, e1);
      CodeOfAddress(g, e1);
      LoadBehind(ExprCode(g, e1), LoadOp(TypeOf(g, e1) - PTR_TYPE));
    case AddressOf(e1) =>
      LoadsAreCounted(g, e1);
      CodeOfAddress(g, e1);
      LoadTaken(ExprCode(g, e1));
    case Unary(op, e1) =>
      CodeOfUnary(g, e1);
      if op == Plus { LoadsAreCounted(g, e1); } else { UnaryLoads(g, op, e1); }
    case Conditional(c, a, b) =>
      LoadsAreCounted(g, b);
      LastOperandLoads(g, e, b);
    case LogicalOr(a, b) =>
      LoadsAreCounted(g, b);
      LastOperandLoads(g, e, b);
    case LogicalAnd(a, b) =>
      LoadsAreCounted(g, b);
      LastOperandLoads(g, e, b);
    case Call(x, args) => CallLoads(g, x, args);
    case Index(a, i) => IndexLoads(g, a, i);
    case Binary(op, a, b) => BinaryLoads(g, op, a, b);
    case Assign(l, r) => AssignLoads(g, l, r);
    case PreStep(up, e1) => StepLoads(g, up, e1);
    case PostStep(up, e1) => StepLoads(g, up, e1);
    case _ => LeafLoads(g, e);
  }

  lemma CodeOfCast(g: Scope, isChar: bool, stars: nat, e: Expr)
    ensures ExprCode(g, Cast(isChar, stars, e)) == ExprCode(g, e)
  {
  }

  // The code of a last operand stands at the end.
  lemma LastOperandLoads(g: Scope, e: Expr, b: Expr)
    requires GoodSymbols(g.symbols) && Accepted(g, b)
    requires (e.Conditional? || e.LogicalOr? || e.LogicalAnd?) && e.b == b
    ensures TrailingLoads(ExprCode(g, e)) == TrailingLoads(ExprCode(g, b))
  {
    ExprShaped(g, b);
    hide Shaped, TrailingLoads, GoodSymbols, ExprCode, TypeOf, Accepted;
    var d := ExprCode(g, b);
    match e
    case Conditional(c, a, _) =>
      CodeOfConditional(g, c, a, b);
      ShapedBehind(ExprCode(g, c) + [Op(M.JZ), Rel(|ExprCode(g, a)| + 3)] + ExprCode(g, a) + [Op(M.JMP), Rel(|d| + 1)],
                   d);
    case LogicalOr(a, _) =>
      CodeOfLogical(g, a, b);
      ShapedBehind(ExprCode(g, a) + [Op(M.JNZ), Rel(|d| + 1)], d);
    case LogicalAnd(a, _) =>
      CodeOfLogical(g, a, b);
      ShapedBehind(ExprCode(g, a) + [Op(M.JZ), Rel(|d| + 1)], d);
  }

  lemma AssignLoads(g: Scope, l: Expr, r: Expr)
    ensures TrailingLoads(ExprCode(g, Assign(l, r))) == 0
  {
    hide TrailingLoads, ExprCode, TypeOf;
    CodeOfAssign(g, l, r);
    StoreBehind(DropLast(ExprCode(g, l)) + [Op(M.PUSH)] + ExprCode(g, r), TypeOf(g, l));
  }

  lemma LoadTaken(a: Code)
    ensures TrailingLoads(DropLast(a)) == if TrailingLoads(a) == 0 then TrailingLoads(DropLast(a)) else TrailingLoads(a) - 1
    ensures EndsInLoad(a) <==> TrailingLoads(a) > 0
  {
  }

  lemma LeafLoads(g: Scope, e: Expr)
    requires Accepted(g, e) && (e.Num? || e.NegNum? || e.Str? || e.SizeOf? || e.Ident?)
    ensures TrailingLoads(ExprCode(g, e)) == LoadsAtEnd(g, e)
  {
    hide ToWord, Signed;
    TwoWords(M.IMM, 0, M.LI);
    match e
    case Num(v) => TwoWords(M.IMM, v, M.LI);
    case NegNum(v) => TwoWords(M.IMM, ToWord(-(v as int)), M.LI);
    case Str(a) => TwoWords(M.IMM, a, M.LI);
    case SizeOf(c, n) => TwoWords(M.IMM, if TypeName(c, n) == CHAR_TYPE then 1 else 4, M.LI);
    case Ident(x) =>
      var s := Lookup(g, x);
      if s.class_ == Enumerator {
        TwoWords(M.IMM, s.value, M.LI);
      } else if s.class_ == Local {
        TwoWords(M.LEA, ToWord(g.indexOfBp - Signed(s.value)), LoadOp(s.type_));
      } else {
        TwoWords(M.IMM, s.value, LoadOp(s.type_));
      }
  }

  lemma TwoWords(op: Word, v: Word, load: Word)
    requires !IsLoad(op) && IsLoad(load)
    ensures TrailingLoads([Op(op), Arg(v)]) == OneIf(IsLoad(v))
    ensures TrailingLoads([Op(op), Arg(v), Op(load)]) == 1 + OneIf(IsLoad(v))
  {
    assert DropLast([Op(op), Arg(v)]) == [Op(op)];
    assert DropLast([Op(op), Arg(v), Op(load)]) == [Op(op), Arg(v)];
  }

  lemma PairBehind(a: Code, op: Word, v: Word)
    requires !IsLoad(op)
    ensures TrailingLoads(a + [Op(op), Arg(v)]) == OneIf(IsLoad(v))
  {
    TwoWords(op, v, M.LI);
    LoadsBehind(a, [Op(op), Arg(v)]);
  }

  lemma UnaryLoads(g: Scope, op: UnOp, e: Expr)
    requires op != Plus
    ensures TrailingLoads(ExprCode(g, Unary(op, e))) == 0
  {
    CodeOfUnary(g, e);
    hide ExprCode;
    var c := ExprCode(g, e);
    match op
    case Not => assert c + [Op(M.PUSH), Op(M.IMM), Arg(0), Op(M.EQ)] == (c + [Op(M.PUSH), Op(M.IMM), Arg(0)]) + [Op(M.EQ)];
    case Complement =>
      assert c + [Op(M.PUSH), Op(M.IMM), Arg(0xFFFF_FFFF), Op(M.XOR)]
           == (c + [Op(M.PUSH), Op(M.IMM), Arg(0xFFFF_FFFF)]) + [Op(M.XOR)];
    case Negate =>
  }

  lemma CallLoads(g: Scope, x: nat, args: List<Expr>)
    requires GoodSymbols(g.symbols) && Accepted(g, Call(x, args))
    ensures TrailingLoads(ExprCode(g, Call(x, args))) == LoadsAtEnd(g, Call(x, args))
  {
    CodeOfCall(g, x, args);
    hide ExprCode, ArgsCode, ToWord;
    var s, c, n := Lookup(g, x), ArgsCode(g, args), Count(args);
    if args.Cons? {
      var call := if s.class_ == Library then [Op(s.value)] else [Op(M.CALL), Arg(s.value)];
      assert c + CallTail(s, n) == (c + call) + [Op(M.ADJ), Arg(ToWord(n))];
      PairBehind(c + call, M.ADJ, ToWord(n));
    } else if s.class_ == Library {
      assert c + CallTail(s, n) == c + [Op(s.value)];
      NoLoadBehind(c, Op(s.value));
    } else {
      assert c + CallTail(s, n) == c + [Op(M.CALL), Arg(s.value)];
      PairBehind(c, M.CALL, s.value);
    }
  }

  lemma IndexLoads(g: Scope, a: Expr, i: Expr)
    ensures TrailingLoads(ExprCode(g, Index(a, i))) == 1
  {
    CodeOfIndex(g, a, i);
    hide ExprCode, Scale;
    var c, load := ExprCode(g, a) + [Op(M.PUSH)] + ExprCode(g, i) + Scale(TypeOf(g, a)), LoadOp(TypeOf(g, a) - PTR_TYPE);
    assert c + [Op(M.ADD), Op(load)] == (c + [Op(M.ADD)]) + [Op(load)];
    NoLoadBehind(c, Op(M.ADD));
    LoadBehind(c + [Op(M.ADD)], load);
  }

  lemma BinaryLoads(g: Scope, op: BinOp, a: Expr, b: Expr)
    ensures TrailingLoads(ExprCode(g, Binary(op, a, b))) == 0
  {
    CodeOfBinary(g, op, a, b);
    var c, tail := ExprCode(g, a) + [Op(M.PUSH)] + ExprCode(g, b), BinaryTail(op, TypeOf(g, a), TypeOf(g, b));
    TailEnds(op, TypeOf(g, a), TypeOf(g, b));
    hide ExprCode, BinaryTail;
    assert c + tail == (c + tail[..|tail| - 1]) + [tail[|tail| - 1]];
    NoLoadBehind(c + tail[..|tail| - 1], tail[|tail| - 1]);
  }

  lemma TailEnds(op: BinOp, ta: int, tb: int)
    ensures var tail := BinaryTail(op, ta, tb); |tail| > 0 && tail[|tail| - 1].Op? && !IsLoad(tail[|tail| - 1].w)
  {
  }

  lemma StoreBehind(a: Code, t: int)
    ensures TrailingLoads(a + [Op(StoreOp(t))]) == 0
  {
    NoLoadBehind(a, Op(StoreOp(t)));
  }

  lemma StepLoads(g: Scope, up: bool, e: Expr)
    ensures TrailingLoads(ExprCode(g, PreStep(up, e))) == TrailingLoads(ExprCode(g, PostStep(up, e))) == 0
  {
    CodeOfStep(g, up, e);
    hide ExprCode;
    var c, t, load := DropLast(ExprCode(g, e)), TypeOf(g, e), LastWord(ExprCode(g, e));
    var step := StepCode(load, t, up);
    assert c + step == (c + step[..6]) + [Op(StoreOp(t))];
    StoreBehind(c + step[..6], t);
    var undo := if up then M.SUB else M.ADD;
    assert c + step + UndoStep(t, up) == (c + step + [Op(M.PUSH), Op(M.IMM), Arg(StepSize(t))]) + [Op(undo)];
    NoLoadBehind(c + step + [Op(M.PUSH), Op(M.IMM), Arg(StepSize(t))], Op(undo));
  }

  // The test, by the form of the operand: exactly those expressions pass whose code ends in
  // something that reads as a load. Lvalues are among them.
  lemma LvalueTestIs(g: Scope, e: Expr)
    requires GoodSymbols(g.symbols) && Accepted(g, e)
    ensures EndsInLoad(ExprCode(g, e)) <==> LoadsAtEnd(g, e) > 0
    ensures IsLvalue(g, e) ==> LoadsAtEnd(g, e) > 0
  {
    hide *;
    LoadsAreCounted(g, e);
    LoadTaken(ExprCode(g, e));
    LvalueLoads(g, e);
  }

  lemma LvalueLoads(g: Scope, e: Expr)
    requires Accepted(g, e)
    ensures IsLvalue(g, e) ==> LoadsAtEnd(g, e) > 0
  {
    hide ExprCode, TypeOf, ToWord;
  }

  // When the compiler takes an operand for an lvalue that is none.
  predicate Mistaken(g: Scope, e: Expr) {
    match e
    case Num(v) => IsLoad(v)
    case NegNum(v) => IsLoad(ToWord(-(v as int)))
    case Str(a) => IsLoad(a)
    case Ident(x) => Lookup(g, x).class_ == Enumerator && IsLoad(Lookup(g, x).value)
    case Call(x, args) =>
      if args.Cons? then IsLoad(ToWord(Count(args))) else Lookup(g, x).class_ != Library && IsLoad(Lookup(g, x).value)
    case Cast(_, _, e) => IsLvalue(g, e) || Mistaken(g, e)
    case Unary(op, e) => op == Plus && (IsLvalue(g, e) || Mistaken(g, e))
    case AddressOf(e) => LoadsAtEnd(g, e) > 1
    case Conditional(_, _, b) => IsLvalue(g, b) || Mistaken(g, b)
    case LogicalOr(_, b) => IsLvalue(g, b) || Mistaken(g, b)
    case LogicalAnd(_, b) => IsLvalue(g, b) || Mistaken(g, b)
    case _ => false
  }

  lemma {:induction false} MistakenExactly(g: Scope, e: Expr)
    requires GoodSymbols(g.symbols) && Accepted(g, e)
    ensures EndsInLoad(ExprCode(g, e)) && !IsLvalue(g, e) <==> Mistaken(g, e)
    ensures LoadsAtEnd(g, e) > 0 <==> IsLvalue(g, e) || Mistaken(g, e)
  {
    hide ExprCode, EndsInLoad, GoodSymbols, ToWord;
    LvalueTestIs(g, e);
    match e
    case Cast(_, _, e1) => MistakenExactly(g, e1);
    case Unary(op, e1) => MistakenExactly(g, e1);
    case Conditional(_, _, b) => MistakenExactly(g, b);
    case LogicalOr(_, b) => MistakenExactly(g, b);
    case LogicalAnd(_, b) => MistakenExactly(g, b);
    case _ =>
  }

  // ----- the operators that want an lvalue -----

  // `=`, `++` and `--` after an accepted expression, and `&`, `++` and `--` before one, are
  // refused exactly when it is neither an lvalue nor mistaken for one.
  lemma RefusedExactly(g: Scope, e: Expr, ts: seq<Token>)
    requires GoodSymbols(g.symbols) && Accepted(g, e) && |ts| > 0
    ensures Kind(ts) == ASSIGN && ParseExpr(g, ASSIGN, ts[1..]).Ok? ==>
      (ParseOp(g, e, ts).Err? <==> !IsLvalue(g, e) && !Mistaken(g, e))
    ensures Kind(ts) in {INC, DEC} ==> (ParseOp(g, e, ts).Err? <==> !IsLvalue(g, e) && !Mistaken(g, e))
    ensures forall k :: k in {AND, INC, DEC} ==> (ParsePrefix(g, k, e, ts).Err? <==> !IsLvalue(g, e) && !Mistaken(g, e))
  {
    hide GoodSymbols, Accepted, Mistaken, IsLvalue, ExprCode, EndsInLoad, ParseExpr, LoadsAtEnd, ParseOp;
    MistakenExactly(g, e);
    if IsLvalue(g, e) { LvalueTestIs(g, e); }
    if Kind(ts) == ASSIGN {
      GrammarOfAssign(g, e, ts);
    } else if Kind(ts) == INC || Kind(ts) == DEC {
      GrammarOfStep(g, e, ts);
    }
  }

  // In source text: an assignment to a printed expression is accepted exactly when the
  // expression is an lvalue or mistaken for one.
  lemma TargetExactly(g: Scope, e: Expr, v: Word)
    requires GoodSymbols(g.symbols) && WellFormed(g, e)
    ensures ParseExpr(g, ASSIGN, PrintLeft(e, ASSIGN) + [Tok(ASSIGN), NumTok(v), Tok(SEMI)])
         == if IsLvalue(g, e) || Mistaken(g, e) then Ok(Assign(e, Num(v)), [Tok(SEMI)]) else Err(BAD_ASSIGNMENT)
  {
    hide GoodSymbols, Accepted, WellFormed, Mistaken, IsLvalue, ExprCode, EndsInLoad, ParseExpr, PrintLeft, ParseOp;
    var right := [NumTok(v), Tok(SEMI)];
    var ts := [Tok(ASSIGN)] + right;
    Jumps.AcceptedWellFormed(g, e);
    MistakenExactly(g, e);
    if IsLvalue(g, e) { LvalueEndsInLoad(g, e); }
    ParseNumber(g, v);
    assert ts == [Tok(ASSIGN), NumTok(v), Tok(SEMI)] && ts[1..] == right;
    ParsePrintLeft(g, ASSIGN, e, ASSIGN, right);
    GrammarOfAssign(g, e, ts);
  }

  lemma ParseNumber(g: Scope, v: Word)
    ensures ParseExpr(g, ASSIGN, [NumTok(v), Tok(SEMI)]) == Ok(Num(v), [Tok(SEMI)])
  {
    assert [NumTok(v), Tok(SEMI)] == Print(Num(v)) + [Tok(SEMI)];
    ParseInvertsPrint(g, Num(v), [Tok(SEMI)]);
  }

  // `x || y = v`: the jump that skips `y` also skips the push of its address.
  lemma OperandAsTarget(g: Scope, x: nat, y: nat, v: Word)
    requires GoodSymbols(g.symbols) && Lookup(g, x).class_ in {Local, Global} && Lookup(g, y).class_ in {Local, Global}
    ensures var e := LogicalOr(Ident(x), Ident(y));
      && ParseExpr(g, ASSIGN, [IdTok(x), Tok(LOR), IdTok(y), Tok(ASSIGN), NumTok(v), Tok(SEMI)])
           == Ok(Assign(e, Num(v)), [Tok(SEMI)])
      && var c, n := ExprCode(g, Assign(e, Num(v))), |ExprCode(g, Ident(x))|;
        && |c| > n + 5 && c[n] == Op(M.JNZ) && c[n + 1] == Rel(4) && c[n + 4] == Op(M.PUSH)
  {
    hide ExprCode, Print, PrintLeft, ParseExpr, WellFormed, Mistaken, IsLvalue, GoodSymbols, Lookup;
    var e := LogicalOr(Ident(x), Ident(y));
    OrTokens(x, y);
    OrCode(g, x, y);
    OrPasses(g, x, y);
    TargetExactly(g, e, v);
    assert [IdTok(x), Tok(LOR), IdTok(y)] + [Tok(ASSIGN), NumTok(v), Tok(SEMI)]
        == [IdTok(x), Tok(LOR), IdTok(y), Tok(ASSIGN), NumTok(v), Tok(SEMI)];
    CodeOfAssign(g, e, Num(v));
  }

  lemma OrPasses(g: Scope, x: nat, y: nat)
    requires Lookup(g, x).class_ in {Local, Global} && Lookup(g, y).class_ in {Local, Global}
    ensures var e := LogicalOr(Ident(x), Ident(y)); WellFormed(g, e) && Mistaken(g, e)
  {
    assert WellFormed(g, Ident(x)) && WellFormed(g, Ident(y)) && IsLvalue(g, Ident(y));
  }

  lemma OrTokens(x: nat, y: nat)
    ensures PrintLeft(LogicalOr(Ident(x), Ident(y)), ASSIGN) == [IdTok(x), Tok(LOR), IdTok(y)]
  {
    assert Print(Ident(x)) == [IdTok(x)] && Print(Ident(y)) == [IdTok(y)];
    assert PrintAt(LAN, Ident(y)) == Print(Ident(y)) && PrintLeft(Ident(x), LOR) == Print(Ident(x));
  }

  lemma OrCode(g: Scope, x: nat, y: nat)
    requires Lookup(g, x).class_ in {Local, Global} && Lookup(g, y).class_ in {Local, Global}
    ensures var c, n := DropLast(ExprCode(g, LogicalOr(Ident(x), Ident(y)))), |ExprCode(g, Ident(x))|;
      |c| == n + 4 && c[n] == Op(M.JNZ) && c[n + 1] == Rel(4)
  {
    CodeOfLogical(g, Ident(x), Ident(y));
    assert |ExprCode(g, Ident(x))| == |ExprCode(g, Ident(y))| == 3;
  }

  // `&x = v` for a local whose slot is 9: the number of the slot becomes the push, and LEA
  // takes it for its operand.
  lemma AddressAsTarget(g: Scope, x: nat, v: Word)
    requires GoodSymbols(g.symbols) && Lookup(g, x).class_ == Local
    requires ToWord(g.indexOfBp - Signed(Lookup(g, x).value)) == 9
    ensures var e := AddressOf(Ident(x));
      && ParseExpr(g, ASSIGN, [Tok(AND), IdTok(x), Tok(ASSIGN), NumTok(v), Tok(SEMI)])
           == Ok(Assign(e, Num(v)), [Tok(SEMI)])
      && ExprCode(g, Assign(e, Num(v)))[..2] == [Op(M.LEA), Op(M.PUSH)]
  {
    var e := AddressOf(Ident(x));
    AddressParts(g, x);
    hide ExprCode, Print, PrintLeft, ParseExpr, WellFormed, Mistaken, IsLvalue, GoodSymbols, Lookup, ToWord, Signed;
    TargetExactly(g, e, v);
    assert [Tok(AND)] + [IdTok(x)] + [Tok(ASSIGN), NumTok(v), Tok(SEMI)]
         == [Tok(AND), IdTok(x), Tok(ASSIGN), NumTok(v), Tok(SEMI)];
    CodeOfAssign(g, e, Num(v));
  }

  lemma AddressParts(g: Scope, x: nat)
    requires Lookup(g, x).class_ == Local && ToWord(g.indexOfBp - Signed(Lookup(g, x).value)) == 9
    ensures var e := AddressOf(Ident(x));
      && PrintLeft(e, ASSIGN) == [Tok(AND)] + [IdTok(x)] && WellFormed(g, e) && Mistaken(g, e)
      && ExprCode(g, e) == [Op(M.LEA), Arg(9)]
  {
    hide ToWord, Signed;
    assert PrintAt(INC, Ident(x)) == [IdTok(x)];
    CodeOfAddress(g, Ident(x));
  }
}
