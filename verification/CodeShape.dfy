/** What the code of an accepted expression looks like, and how blocks are placed. */
module CodeShape {
  import opened Words
  import opened Syntax
  import opened Codegen
  import opened Grammar
  import M = Machine

  // The library entries of the symbol table carry the opcodes of the library calls, also
  // while a local name hides them.
  predicate GoodSymbols(symbols: map<nat, Symbol>) {
    && (forall x :: x in symbols && symbols[x].class_ == Library ==> M.MOD < symbols[x].value <= M.FREE)
    && (forall x :: x in symbols && symbols[x].class_ == Local && symbols[x].outerClass == Library ==>
          M.MOD < symbols[x].outerValue <= M.FREE)
  }

  // An opcode that can be mistaken neither for a load nor for an operand.
  predicate PlainOp(i: Item) {
    i.Op? && i.w !in {M.LI, M.LC}
  }

  // A block starts with a plain opcode, and a plain opcode follows every jump target.
  // So the last word of a block is never a jump target, even after a load is dropped.
  predicate Shaped(code: Code) {
    && |code| > 0 && PlainOp(code[0])
    && forall i :: 0 <= i < |code| && code[i].Rel? ==> i + 1 < |code| && PlainOp(code[i + 1])
  }

  predicate NoTargets(code: Code) {
    forall i :: 0 <= i < |code| ==> !code[i].Rel?
  }

  lemma ShapedAppend(a: Code, b: Code)
    requires Shaped(a) && (Shaped(b) || NoTargets(b))
    ensures Shaped(a + b)
  {
    forall i | 0 <= i < |a + b| && (a + b)[i].Rel?
      ensures i + 1 < |a + b| && PlainOp((a + b)[i + 1])
    {
      if i < |a| {
        assert (a + b)[i] == a[i] && (a + b)[i + 1] == a[i + 1];
      } else {
        assert (a + b)[i] == b[i - |a|] && (a + b)[i + 1] == b[i - |a| + 1];
      }
    }
  }

  // A jump whose target word stands right before a block.
  lemma ShapedJump(a: Code, jump: Word, k: int, b: Code)
    requires Shaped(a) && Shaped(b)
    ensures Shaped(a + [Op(jump), Rel(k)] + b)
  {
    var c := a + [Op(jump), Rel(k)] + b;
    forall i | 0 <= i < |c| && c[i].Rel?
      ensures i + 1 < |c| && PlainOp(c[i + 1])
    {
      if i < |a| {
        assert c[i] == a[i] && c[i + 1] == a[i + 1];
      } else if i >= |a| + 2 {
        assert c[i] == b[i - |a| - 2] && c[i + 1] == b[i - |a| - 1];
      } else {
        assert i == |a| + 1 && c[i + 1] == b[0];
      }
    }
    assert c[0] == a[0];
  }

  // Rewriting the load at the end of a block.
  lemma ShapedRewrite(a: Code, b: Code)
    requires Shaped(a) && EndsInLoad(a)
    requires NoTargets(b) && |b| > 0 && PlainOp(b[0])
    ensures Shaped(DropLast(a)) && Shaped(DropLast(a) + b)
  {
    var n := |a| - 1;
    assert n != 0;
    forall i | 0 <= i < n && a[i].Rel?
      ensures i + 1 < n && PlainOp(a[i + 1])
    {
    }
    assert DropLast(a)[0] == a[0];
    ShapedAppend(DropLast(a), b);
  }

  // A block, words without targets, another block, and again words without targets.
  lemma ShapedBinary(a: Code, b: Code, tail: Code)
    requires Shaped(a) && Shaped(b) && NoTargets(tail)
    ensures Shaped(a + [Op(M.PUSH)] + b + tail)
  {
    hide Shaped;
    ShapedAppend(a, [Op(M.PUSH)]);
    ShapedAppend(a + [Op(M.PUSH)], b);
    ShapedAppend(a + [Op(M.PUSH)] + b, tail);
  }

  lemma ShapedUnary(op: UnOp, a: Code)
    requires Shaped(a)
    ensures Shaped(a + [Op(M.PUSH), Op(M.IMM), Arg(0), Op(M.EQ)])
    ensures Shaped(a + [Op(M.PUSH), Op(M.IMM), Arg(0xFFFF_FFFF), Op(M.XOR)])
    ensures Shaped([Op(M.IMM), Arg(0xFFFF_FFFF), Op(M.PUSH)] + a + [Op(M.MUL)])
  {
    ShapedAppend(a, [Op(M.PUSH), Op(M.IMM), Arg(0), Op(M.EQ)]);
    ShapedAppend(a, [Op(M.PUSH), Op(M.IMM), Arg(0xFFFF_FFFF), Op(M.XOR)]);
    ShapedAppend([Op(M.IMM), Arg(0xFFFF_FFFF), Op(M.PUSH)], a);
    ShapedAppend([Op(M.IMM), Arg(0xFFFF_FFFF), Op(M.PUSH)] + a, [Op(M.MUL)]);
  }

  lemma ShapedStep(a: Code, t: int, up: bool)
    requires Shaped(a) && EndsInLoad(a)
    ensures Shaped(DropLast(a) + StepCode(LastWord(a), t, up))
    ensures Shaped(DropLast(a) + StepCode(LastWord(a), t, up) + UndoStep(t, up))
  {
    ShapedRewrite(a, StepCode(LastWord(a), t, up));
    ShapedAppend(DropLast(a) + StepCode(LastWord(a), t, up), UndoStep(t, up));
  }

  lemma ShapedAssign(a: Code, b: Code, store: Word)
    requires Shaped(a) && EndsInLoad(a) && Shaped(b)
    ensures Shaped(DropLast(a) + [Op(M.PUSH)] + b + [Op(store)])
  {
    ShapedRewrite(a, [Op(M.PUSH)]);
    ShapedAppend(DropLast(a) + [Op(M.PUSH)], b);
    ShapedAppend(DropLast(a) + [Op(M.PUSH)] + b, [Op(store)]);
  }

  lemma ShapedBranch(c: Code, a: Code, b: Code)
    requires Shaped(c) && Shaped(a) && Shaped(b)
    ensures Shaped(BranchCode(c, a, b))
  {
    ShapedJump(c, M.JZ, |a| + 3, a);
    ShapedJump(c + [Op(M.JZ), Rel(|a| + 3)] + a, M.JMP, |b| + 1, b);
  }

  lemma {:induction false} ExprShaped(g: Scope, e: Expr)
    requires GoodSymbols(g.symbols) && Accepted(g, e)
    ensures Shaped(ExprCode(g, e))
    decreases e, 1
  {
    hide Shaped;
    match e
    case Call(x, args) => CallShaped(g, x, args);
    case Cast(_, _, e1) => ExprShaped(g, e1);
    case Deref(e1) => ExprShaped(g, e1); ShapedAppend(ExprCode(g, e1), [Op(LoadOp(TypeOf(g, e1) - PTR_TYPE))]);
    case AddressOf(e1) => ExprShaped(g, e1); ShapedRewrite(ExprCode(g, e1), [Op(M.PUSH)]);
    case Unary(op, e1) => ExprShaped(g, e1); ShapedUnary(op, ExprCode(g, e1));
    case PreStep(up, e1) => ExprShaped(g, e1); ShapedStep(ExprCode(g, e1), TypeOf(g, e1), up);
    case PostStep(up, e1) => ExprShaped(g, e1); ShapedStep(ExprCode(g, e1), TypeOf(g, e1), up);
    case Index(e1, i) =>
      ExprShaped(g, e1); ExprShaped(g, i);
      var a, b, t := ExprCode(g, e1), ExprCode(g, i), TypeOf(g, e1);
      var tail := [Op(M.ADD), Op(LoadOp(t - PTR_TYPE))];
      ScalePlain(t);
      hide Scale;
      ShapedBinary(a, b, Scale(t));
      ShapedAppend(a + [Op(M.PUSH)] + b + Scale(t), tail);
    case Assign(l, r) =>
      ExprShaped(g, l); ExprShaped(g, r);
      ShapedAssign(ExprCode(g, l), ExprCode(g, r), StoreOp(TypeOf(g, l)));
    case Conditional(c, a, b) =>
      ExprShaped(g, c); ExprShaped(g, a); ExprShaped(g, b);
      ShapedBranch(ExprCode(g, c), ExprCode(g, a), ExprCode(g, b));
    case LogicalOr(a, b) =>
      ExprShaped(g, a); ExprShaped(g, b);
      ShapedJump(ExprCode(g, a), M.JNZ, |ExprCode(g, b)| + 1, ExprCode(g, b));
    case LogicalAnd(a, b) =>
      ExprShaped(g, a); ExprShaped(g, b);
      ShapedJump(ExprCode(g, a), M.JZ, |ExprCode(g, b)| + 1, ExprCode(g, b));
    case Binary(op, a, b) =>
      ExprShaped(g, a); ExprShaped(g, b);
      BinaryTailPlain(op, TypeOf(g, a), TypeOf(g, b));
      hide BinaryTail;
      ShapedBinary(ExprCode(g, a), ExprCode(g, b), BinaryTail(op, TypeOf(g, a), TypeOf(g, b)));
    case _ => LeafShaped(g, e);
  }

  lemma LeafShaped(g: Scope, e: Expr)
    requires GoodSymbols(g.symbols) && Accepted(g, e)
    requires e.Num? || e.NegNum? || e.Str? || e.SizeOf? || e.Ident?
    ensures Shaped(ExprCode(g, e))
  {
  }

  lemma ScalePlain(t: int)
    ensures NoTargets(Scale(t))
  {
  }

  lemma BinaryTailPlain(op: BinOp, ta: int, tb: int)
    ensures NoTargets(BinaryTail(op, ta, tb))
  {
  }

  lemma {:induction false} CallShaped(g: Scope, x: nat, args: List<Expr>)
    requires GoodSymbols(g.symbols) && Accepted(g, Call(x, args))
    ensures Shaped(ExprCode(g, Call(x, args)))
    decreases Call(x, args), 0
  {
    var tail := CallTail(Lookup(g, x), Count(args));
    assert NoTargets(tail) && PlainOp(tail[0]);
    if args.Cons? {
      ArgsShaped(g, args);
      ShapedAppend(ArgsCode(g, args), tail);
    } else {
      assert ExprCode(g, Call(x, args)) == tail;
    }
  }

  lemma {:induction false} ArgsShaped(g: Scope, args: List<Expr>)
    requires GoodSymbols(g.symbols) && args.Cons? && AcceptedArgs(g, args)
    ensures Shaped(ArgsCode(g, args))
    decreases args, 2
  {
    var Cons(e, rest) := args;
    ExprShaped(g, e);
    hide Shaped;
    ShapedAppend(ExprCode(g, e), [Op(M.PUSH)]);
    if rest.Cons? {
      ArgsShaped(g, rest);
    }
    ShapedAppend(ExprCode(g, e) + [Op(M.PUSH)], ArgsCode(g, rest));
  }

  // ----- placing blocks -----

  // The text area after a block has been appended to `start`; the area is at byte `base`.
  function With(base: int, start: seq<Word>, code: Code): (t: seq<Word>)
    ensures |t| == |start| + |code|
  {
    start + Place(base + 4 * |start|, code)
  }

  lemma WithNothing(base: int, start: seq<Word>)
    ensures With(base, start, []) == start
  {
  }

  lemma WithAppend(base: int, start: seq<Word>, a: Code, b: Code)
    ensures With(base, With(base, start, a), b) == With(base, start, a + b)
  {
  }

  // Appending words without targets: where they stand does not matter.
  lemma WithWords(base: int, start: seq<Word>, a: Code, tail: Code, words: seq<Word>)
    requires |words| == |tail| && forall i :: 0 <= i < |tail| ==> !tail[i].Rel? && words[i] == tail[i].w
    ensures With(base, start, a) + words == With(base, start, a + tail)
  {
  }

  // The text after a block and a jump whose target is not known yet.
  function Open(base: int, start: seq<Word>, code: Code, jump: Word): (t: seq<Word>)
    ensures |t| == |start| + |code| + 2
  {
    With(base, start, code) + [jump, 0]
  }

  // A jump emitted with an unknown target, a block, and the target patched afterwards.
  lemma WithPatch(base: int, start: seq<Word>, a: Code, jump: Word, b: Code, k: int, target: Word)
    requires target == ToWord(base + 4 * (|start| + |a| + 1 + k))
    ensures var t := With(base, Open(base, start, a, jump), b);
      t[|start| + |a| + 1 := target] == With(base, start, a + [Op(jump), Rel(k)] + b)
  {
  }

  // A loop: the exit is patched, the jump back is emitted with its target.
  lemma WithLoop(base: int, start: seq<Word>, c: Code, body: Code)
    ensures var t := With(base, Open(base, start, c, M.JZ), body) + [M.JMP, ToWord(base + 4 * |start|)];
      t[|start| + |c| + 1 := ToWord(base + 4 * |t|)] == With(base, start, LoopCode(c, body))
  {
    var exit := ToWord(base + 4 * (|start| + |c| + |body| + 4));
    var front := c + [Op(M.JZ), Rel(|body| + 3)] + body;
    var jump := Rel(-(|c| + 2 + |body| + 1));
    WithPatch(base, start, c, M.JZ, body, |body| + 3, exit);
    WithAppend(base, start, front, [Op(M.JMP), jump]);
    assert With(base, With(base, start, front), [Op(M.JMP), jump])
        == With(base, start, front) + [M.JMP, ToWord(base + 4 * |start|)];
    assert front + [Op(M.JMP), jump] == LoopCode(c, body);
    var t0 := With(base, Open(base, start, c, M.JZ), body);
    assert (t0 + [M.JMP, ToWord(base + 4 * |start|)])[|start| + |c| + 1 := exit]
        == t0[|start| + |c| + 1 := exit] + [M.JMP, ToWord(base + 4 * |start|)];
  }

  // The last word of the text tells whether the block just appended ends in a load, and
  // can be rewritten or taken back.
  lemma WithLast(base: int, start: seq<Word>, code: Code, w: Word)
    requires Shaped(code)
    ensures var t := With(base, start, code);
      && |t| > 0 && t[|t| - 1] == LastWord(code)
      && (EndsInLoad(code) <==> LastWord(code) in {M.LI, M.LC})
      && t[|t| - 1 := w] == With(base, start, DropLast(code) + [Op(w)])
      && t[..|t| - 1] == With(base, start, DropLast(code))
  {
  }

  // ----- the code of each form, for one unfolding at a time -----

  lemma CodeOfAssign(g: Scope, a: Expr, b: Expr)
    ensures ExprCode(g, Assign(a, b))
         == DropLast(ExprCode(g, a)) + [Op(M.PUSH)] + ExprCode(g, b) + [Op(StoreOp(TypeOf(g, a)))]
    ensures TypeOf(g, Assign(a, b)) == TypeOf(g, a)
  {
    hide Scale, BinaryTail, StepCode, UndoStep, DropLast, LastWord, ShortCode, BranchCode, LoadOp, StoreOp, IdentCode,
         CallTail, ArgsCode, TypeName, Lookup;
  }

  lemma CodeOfLogical(g: Scope, a: Expr, b: Expr)
    ensures ExprCode(g, LogicalOr(a, b)) == ShortCode(M.JNZ, ExprCode(g, a), ExprCode(g, b))
    ensures ExprCode(g, LogicalAnd(a, b)) == ShortCode(M.JZ, ExprCode(g, a), ExprCode(g, b))
    ensures TypeOf(g, LogicalOr(a, b)) == TypeOf(g, LogicalAnd(a, b)) == INT_TYPE
  {
    hide Scale, BinaryTail, StepCode, UndoStep, DropLast, LastWord, ShortCode, BranchCode, LoadOp, StoreOp, IdentCode,
         CallTail, ArgsCode, TypeName, Lookup;
  }

  lemma CodeOfIndex(g: Scope, a: Expr, b: Expr)
    ensures ExprCode(g, Index(a, b)) == ExprCode(g, a) + [Op(M.PUSH)] + ExprCode(g, b) + Scale(TypeOf(g, a))
                                        + [Op(M.ADD), Op(LoadOp(TypeOf(g, a) - PTR_TYPE))]
    ensures TypeOf(g, Index(a, b)) == TypeOf(g, a) - PTR_TYPE
  {
    hide Scale, BinaryTail, StepCode, UndoStep, DropLast, LastWord, ShortCode, BranchCode, LoadOp, StoreOp, IdentCode,
         CallTail, ArgsCode, TypeName, Lookup;
  }

  lemma CodeOfConditional(g: Scope, c: Expr, a: Expr, b: Expr)
    ensures ExprCode(g, Conditional(c, a, b)) == BranchCode(ExprCode(g, c), ExprCode(g, a), ExprCode(g, b))
    ensures TypeOf(g, Conditional(c, a, b)) == TypeOf(g, b)
  {
  }

  lemma CodeOfBinary(g: Scope, op: BinOp, a: Expr, b: Expr)
    ensures ExprCode(g, Binary(op, a, b))
         == ExprCode(g, a) + [Op(M.PUSH)] + ExprCode(g, b) + BinaryTail(op, TypeOf(g, a), TypeOf(g, b))
  {
    hide Scale, BinaryTail, StepCode, UndoStep, DropLast, LastWord, ShortCode, BranchCode, LoadOp, StoreOp, IdentCode,
         CallTail, ArgsCode, TypeName, Lookup, TypeOf;
  }

  lemma CodeOfAddress(g: Scope, e: Expr)
    ensures ExprCode(g, Deref(e)) == ExprCode(g, e) + [Op(LoadOp(TypeOf(g, e) - PTR_TYPE))]
    ensures ExprCode(g, AddressOf(e)) == DropLast(ExprCode(g, e))
  {
    hide Scale, BinaryTail, StepCode, UndoStep, DropLast, LastWord, ShortCode, BranchCode, LoadOp, StoreOp, IdentCode,
         CallTail, ArgsCode, TypeName, Lookup, TypeOf;
  }

  lemma CodeOfUnary(g: Scope, e: Expr)
    ensures ExprCode(g, Unary(Not, e)) == ExprCode(g, e) + [Op(M.PUSH), Op(M.IMM), Arg(0), Op(M.EQ)]
    ensures ExprCode(g, Unary(Complement, e)) == ExprCode(g, e) + [Op(M.PUSH), Op(M.IMM), Arg(0xFFFF_FFFF), Op(M.XOR)]
    ensures ExprCode(g, Unary(Plus, e)) == ExprCode(g, e)
    ensures ExprCode(g, Unary(Negate, e)) == [Op(M.IMM), Arg(0xFFFF_FFFF), Op(M.PUSH)] + ExprCode(g, e) + [Op(M.MUL)]
  {
    hide Scale, BinaryTail, StepCode, UndoStep, DropLast, LastWord, ShortCode, BranchCode, LoadOp, StoreOp, IdentCode,
         CallTail, ArgsCode, TypeName, Lookup, TypeOf;
  }

  lemma CodeOfStep(g: Scope, up: bool, e: Expr)
    ensures ExprCode(g, PreStep(up, e))
         == DropLast(ExprCode(g, e)) + StepCode(LastWord(ExprCode(g, e)), TypeOf(g, e), up)
    ensures ExprCode(g, PostStep(up, e))
         == DropLast(ExprCode(g, e)) + StepCode(LastWord(ExprCode(g, e)), TypeOf(g, e), up)
                                            + UndoStep(TypeOf(g, e), up)
  {
    hide Scale, BinaryTail, StepCode, UndoStep, DropLast, LastWord, ShortCode, BranchCode, LoadOp, StoreOp, IdentCode,
         CallTail, ArgsCode, TypeName, Lookup, TypeOf;
  }

  // The prefix operators together.
  lemma CodeOfPrefix(g: Scope, up: bool, e: Expr)
    ensures ExprCode(g, Deref(e)) == ExprCode(g, e) + [Op(LoadOp(TypeOf(g, e) - PTR_TYPE))]
    ensures ExprCode(g, AddressOf(e)) == DropLast(ExprCode(g, e))
    ensures ExprCode(g, Unary(Not, e)) == ExprCode(g, e) + [Op(M.PUSH), Op(M.IMM), Arg(0), Op(M.EQ)]
    ensures ExprCode(g, Unary(Complement, e)) == ExprCode(g, e) + [Op(M.PUSH), Op(M.IMM), Arg(0xFFFF_FFFF), Op(M.XOR)]
    ensures ExprCode(g, Unary(Plus, e)) == ExprCode(g, e)
    ensures ExprCode(g, Unary(Negate, e)) == [Op(M.IMM), Arg(0xFFFF_FFFF), Op(M.PUSH)] + ExprCode(g, e) + [Op(M.MUL)]
    ensures ExprCode(g, PreStep(up, e))
         == DropLast(ExprCode(g, e)) + StepCode(LastWord(ExprCode(g, e)), TypeOf(g, e), up)
  {
    hide ExprCode, TypeOf, StepCode, DropLast, LastWord, LoadOp;
    CodeOfAddress(g, e);
    CodeOfUnary(g, e);
    CodeOfStep(g, up, e);
  }

  lemma TypeOfPrefix(g: Scope, up: bool, op: UnOp, e: Expr)
    ensures TypeOf(g, Deref(e)) == TypeOf(g, e) - PTR_TYPE
    ensures TypeOf(g, AddressOf(e)) == TypeOf(g, e) + PTR_TYPE
    ensures TypeOf(g, Unary(op, e)) == INT_TYPE
    ensures TypeOf(g, PreStep(up, e)) == TypeOf(g, PostStep(up, e)) == TypeOf(g, e)
  {
  }

  // ----- the grammar of each operator, for one unfolding at a time -----

  lemma GrammarOfAssign(g: Scope, left: Expr, ts: seq<Token>)
    requires |ts| > 0 && Kind(ts) == ASSIGN
    ensures !EndsInLoad(ExprCode(g, left)) ==> ParseOp(g, left, ts) == Err(BAD_ASSIGNMENT)
    ensures var p := ParseExpr(g, ASSIGN, ts[1..]);
      EndsInLoad(ExprCode(g, left)) ==>
        && (p.Err? ==> ParseOp(g, left, ts) == Err(p.error))
        && (p.Ok? ==> ParseOp(g, left, ts) == Ok(Assign(left, p.value), p.rest))
  {
    hide ParseExpr, ExprCode, Accepted;
  }

  lemma GrammarOfConditional(g: Scope, left: Expr, ts: seq<Token>)
    requires |ts| > 0 && Kind(ts) == COND
    ensures var p := ParseExpr(g, ASSIGN, ts[1..]);
      && (p.Err? ==> ParseOp(g, left, ts) == Err(p.error))
      && (p.Ok? && Kind(p.rest) != COLON ==> ParseOp(g, left, ts) == Err(MISSING_COLON))
      && (p.Ok? && Kind(p.rest) == COLON ==>
            var q := ParseExpr(g, COND, p.rest[1..]);
            && (q.Err? ==> ParseOp(g, left, ts) == Err(q.error))
            && (q.Ok? ==> ParseOp(g, left, ts) == Ok(Conditional(left, p.value, q.value), q.rest)))
  {
    hide ParseExpr, ExprCode, Accepted;
  }

  lemma GrammarOfIndex(g: Scope, left: Expr, ts: seq<Token>)
    requires |ts| > 0 && Kind(ts) == BRAK
    ensures var p := ParseExpr(g, ASSIGN, ts[1..]);
      && (p.Err? ==> ParseOp(g, left, ts) == Err(p.error))
      && (p.Ok? && Kind(p.rest) != RBRACK ==> ParseOp(g, left, ts) == Err(EXPECTED_TOKEN))
      && (p.Ok? && Kind(p.rest) == RBRACK ==>
            ParseOp(g, left, ts)
              == if TypeOf(g, left) < PTR_TYPE then Err(POINTER_EXPECTED) else Ok(Index(left, p.value), p.rest[1..]))
  {
    hide ParseExpr, ExprCode, Accepted, TypeOf;
  }

  lemma OperatorIsNoEnd(kind: int)
    ensures BinOpOf(kind).Some? ==> kind != EOF
  {
  }

  lemma GrammarOfInfix(g: Scope, left: Expr, ts: seq<Token>, op: BinOp)
    requires |ts| > 0 && BinOpOf(Kind(ts)) == Some(op)
    ensures var p := ParseExpr(g, RightLevel(op), ts[1..]);
      && (p.Err? ==> ParseOp(g, left, ts) == Err(p.error))
      && (p.Ok? ==> ParseOp(g, left, ts) == Ok(Binary(op, left, p.value), p.rest))
  {
    hide ParseExpr, ExprCode, Accepted, TypeOf, RightLevel;
    assert Kind(ts) !in {ASSIGN, COND, LOR, LAN};
    hide BinOpOf;
  }

  lemma GrammarOfStep(g: Scope, left: Expr, ts: seq<Token>)
    requires |ts| > 0 && (Kind(ts) == INC || Kind(ts) == DEC)
    ensures EndsInLoad(ExprCode(g, left)) ==> ParseOp(g, left, ts) == Ok(PostStep(Kind(ts) == INC, left), ts[1..])
    ensures !EndsInLoad(ExprCode(g, left)) ==> ParseOp(g, left, ts) == Err(BAD_INCREMENT)
  {
    assert BinOpOf(Kind(ts)) == None;
    hide ParseExpr, ExprCode, Accepted, TypeOf, BinOpOf;
  }

  lemma GrammarOfPrefix(g: Scope, ts: seq<Token>)
    requires |ts| > 0 && (ts[0].Tok? || ts[0].KeyTok?) && Kind(ts) in {MUL, AND, BANG, TILDE, ADD, SUB, INC, DEC}
    requires Kind(ts) == SUB ==> |ts| == 1 || !ts[1].NumTok?
    ensures var p := ParseExpr(g, INC, ts[1..]);
      && (p.Err? ==> ParseUnit(g, ts) == Err(p.error))
      && (p.Ok? ==> ParseUnit(g, ts) == ParsePrefix(g, Kind(ts), p.value, p.rest))
  {
    hide ParseExpr, ParsePrefix, Accepted, TypeOf;
  }

  lemma GrammarOfCall(g: Scope, ts: seq<Token>)
    requires |ts| > 1 && ts[0].IdTok? && Kind(ts[1..]) == LPAREN
    ensures var p, x := ParseArgs(g, ts[2..]), SymbolPast(ts);
      && (p.Err? ==> ParseName(g, ts) == Err(p.error))
      && (p.Ok? && Lookup(g, x).class_ in {Library, Function} ==> ParseName(g, ts) == Ok(Call(x, p.value), p.rest))
      && (p.Ok? && Lookup(g, x).class_ !in {Library, Function} ==> ParseName(g, ts) == Err(BAD_CALL))
  {
    hide ParseArgs, Accepted, AcceptedArgs;
  }

  lemma CodeOfCall(g: Scope, x: nat, args: List<Expr>)
    ensures ExprCode(g, Call(x, args)) == ArgsCode(g, args) + CallTail(Lookup(g, x), Count(args))
    ensures TypeOf(g, Call(x, args)) == Lookup(g, x).type_
  {
  }

  lemma CodeOfBinaryType(g: Scope, op: BinOp, a: Expr)
    ensures forall b :: (TypeOf(g, Binary(op, a, b)) ==
      if op == BSub && TypeOf(g, a) > PTR_TYPE && TypeOf(g, a) == TypeOf(g, b) then INT_TYPE
      else if op in {BAdd, BSub, BMul, BDiv, BMod} then TypeOf(g, a) else INT_TYPE)
  {
  }

  lemma RightLevelIsOperator(op: BinOp)
    ensures RightLevel(op) > ASSIGN
  {
  }

  lemma GrammarOfWhile(g: Scope, ts: seq<Token>)
    requires |ts| > 0 && Kind(ts) == WHILE
    ensures var p := ParseCondition(g, ts[1..]);
      && (p.Err? ==> ParseStmt(g, ts) == Err(p.error))
      && (p.Ok? ==>
            var q := ParseStmt(g, p.rest);
            && (q.Err? ==> ParseStmt(g, ts) == Err(q.error))
            && (q.Ok? ==> ParseStmt(g, ts) == Ok(While(p.value, q.value), q.rest)))
  {
    hide ParseCondition, ParseExpr;
  }

  lemma GrammarOfIfError(g: Scope, ts: seq<Token>)
    requires |ts| > 0 && Kind(ts) == IF && ParseCondition(g, ts[1..]).Err?
    ensures ParseStmt(g, ts) == Err(ParseCondition(g, ts[1..]).error)
  {
    hide ParseCondition, ParseExpr;
  }

  lemma GrammarOfIf(g: Scope, ts: seq<Token>, c: Expr, p: Parsed<Stmt>)
    requires |ts| > 0 && Kind(ts) == IF && ParseCondition(g, ts[1..]).Ok? && ParseCondition(g, ts[1..]).value == c
    requires p == ParseStmt(g, ParseCondition(g, ts[1..]).rest)
    ensures p.Err? ==> ParseStmt(g, ts) == p
    ensures p.Ok? && Kind(p.rest) != ELSE ==> ParseStmt(g, ts) == Ok(If(c, p.value), p.rest)
  {
    hide ParseCondition, ParseExpr;
  }

  lemma GrammarOfElse(g: Scope, ts: seq<Token>, c: Expr, p: Parsed<Stmt>, q: Parsed<Stmt>)
    requires |ts| > 0 && Kind(ts) == IF && ParseCondition(g, ts[1..]).Ok? && ParseCondition(g, ts[1..]).value == c
    requires p == ParseStmt(g, ParseCondition(g, ts[1..]).rest)
    requires p.Ok? && Kind(p.rest) == ELSE && q == ParseStmt(g, p.rest[1..])
    ensures q.Err? ==> ParseStmt(g, ts) == q
    ensures q.Ok? ==> ParseStmt(g, ts) == Ok(IfElse(c, p.value, q.value), q.rest)
  {
    hide ParseCondition, ParseExpr;
  }

  lemma CodeOfBranches(g: Scope, c: Expr, s: Stmt, t: Stmt)
    ensures StmtCode(g, If(c, s)) == ShortCode(M.JZ, ExprCode(g, c), StmtCode(g, s))
    ensures StmtCode(g, IfElse(c, s, t)) == BranchCode(ExprCode(g, c), StmtCode(g, s), StmtCode(g, t))
    ensures StmtCode(g, While(c, s)) == LoopCode(ExprCode(g, c), StmtCode(g, s))
  {
  }

  lemma GrammarOfArgs(g: Scope, ts: seq<Token>, e: Expr, after: seq<Token>)
    requires Kind(ts) != RPAREN && ParseExpr(g, ASSIGN, ts) == Ok(e, after)
    ensures var p := ParseArgs(g, if Kind(after) == COMMA then after[1..] else after);
      (p.Err? ==> ParseArgs(g, ts) == p) && (p.Ok? ==> ParseArgs(g, ts) == Ok(Cons(e, p.value), p.rest))
  {
    hide ParseExpr, Accepted;
  }
}
