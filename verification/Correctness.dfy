/**
 * Semantic preservation for whole trees, by induction along the evaluator.
 */
module Correctness {
  import opened Words
  import opened Syntax
  import opened Codegen
  import opened Semantics
  import opened Simulation
  import opened Preservation
  import opened Calls
  import CodeShape
  import M = Machine

  // The code of every function of the program stands at its entry address.
  ghost predicate Loaded(p: Program, text: Memory) {
    && InSpace(text) && 0 <= p.limit
    && forall entry :: entry in p.funs ==> FunctionAt(text, entry, p.funs[entry])
  }

  ghost predicate FunctionAt(text: Memory, entry: int, f: Routine) {
    CodeAt(text, entry, FunctionCode(f.scope, f.locals, f.body))
  }

  // The machine gets from `s`, which represents `st`, to just past `code` and the state `st1`.
  ghost predicate Completes(p: Program, text: Memory, bp: int, sp: int, st: State, s: M.Machine, code: Code,
                            st1: State, t: M.Machine) {
    Goes(p, text, bp, sp, st, s, st1, t) && t.pc == s.pc + 4 * |code|
  }

  // The same with the word `v` left on the stack.
  ghost predicate Leaves(p: Program, text: Memory, bp: int, sp: int, st: State, s: M.Machine, code: Code, v: Word,
                         st1: State, t: M.Machine) {
    Pushed(p, text, bp, sp, st, s, v, st1, t) && t.pc == s.pc + 4 * |code|
  }

  // The machine is about to run `code` in a state that represents `st`.
  ghost predicate Ready(p: Program, text: Memory, bp: int, sp: int, st: State, s: M.Machine, code: Code) {
    Sim(p, text, bp, sp, st, s) && CodeAt(text, s.pc, code) && Loaded(p, text) && InStack(bp, sp)
  }

  // ----- expressions -----

  lemma {:induction false} EvalRuns(p: Program, text: Memory, g: Scope, fuel: nat, bp: int, sp: int, e: Expr,
                                    st: State, s: M.Machine)
    returns (t: M.Machine)
    requires Ready(p, text, bp, sp, st, s, ExprCode(g, e))
    requires Eval(p, g, fuel, bp, sp, e, st).Done?
    ensures Completes(p, text, bp, sp, st, s, ExprCode(g, e), Eval(p, g, fuel, bp, sp, e, st).st, t)
    decreases fuel, e, 4
  {
    hide Goes, Loaded, CodeAt, Sim;
    match e
    case Num(v) => t := ConstantRuns(p, text, g, fuel, bp, sp, e, v, st, s);
    case NegNum(v) => t := ConstantRuns(p, text, g, fuel, bp, sp, e, ToWord(-(v as int)), st, s);
    case Str(a) => t := ConstantRuns(p, text, g, fuel, bp, sp, e, a, st, s);
    case SizeOf(c, n) => t := ConstantRuns(p, text, g, fuel, bp, sp, e, if TypeName(c, n) == CHAR_TYPE then 1 else 4, st, s);
    case Ident(x) =>
      if Lookup(g, x).class_ == Enumerator {
        t := ConstantRuns(p, text, g, fuel, bp, sp, e, Lookup(g, x).value, st, s);
      } else {
        t := EvalLoadRuns(p, text, g, fuel, bp, sp, e, st, s);
      }
    case Deref(_) => t := EvalLoadRuns(p, text, g, fuel, bp, sp, e, st, s);
    case Index(_, _) => t := EvalLoadRuns(p, text, g, fuel, bp, sp, e, st, s);
    case Cast(_, _, e1) => t := EvalRuns(p, text, g, fuel, bp, sp, e1, st, s);
    case AddressOf(e1) => t := EvalAddressRuns(p, text, g, fuel, bp, sp, e1, st, s);
    case PreStep(up, e1) => t := EvalStepRuns(p, text, g, fuel, bp, sp, up, e1, st, s);
    case Unary(op, e1) => t := UnaryRuns(p, text, g, fuel, bp, sp, op, e1, st, s);
    case PostStep(up, e1) => t := PostStepRuns(p, text, g, fuel, bp, sp, up, e1, st, s);
    case Assign(l, r) => t := AssignRuns(p, text, g, fuel, bp, sp, l, r, st, s);
    case Conditional(c, a, b) => t := ConditionalRuns(p, text, g, fuel, bp, sp, c, a, b, st, s);
    case LogicalOr(a, b) => t := ShortCircuitRuns(p, text, g, fuel, bp, sp, M.JNZ, e, a, b, st, s);
    case LogicalAnd(a, b) => t := ShortCircuitRuns(p, text, g, fuel, bp, sp, M.JZ, e, a, b, st, s);
    case Binary(op, a, b) => t := BinaryRuns(p, text, g, fuel, bp, sp, op, a, b, st, s);
    case Call(x, args) => t := CallRuns(p, text, g, fuel, bp, sp, x, args, st, s);
  }

  lemma {:induction false} UnaryRuns(p: Program, text: Memory, g: Scope, fuel: nat, bp: int, sp: int, op: UnOp,
                                     e: Expr, st: State, s: M.Machine)
    returns (t: M.Machine)
    requires Ready(p, text, bp, sp, st, s, ExprCode(g, Unary(op, e)))
    requires Eval(p, g, fuel, bp, sp, Unary(op, e), st).Done?
    ensures Completes(p, text, bp, sp, st, s, ExprCode(g, Unary(op, e)), Eval(p, g, fuel, bp, sp, Unary(op, e), st).st,
                      t)
    decreases fuel, Unary(op, e), 3
  {
    hide Eval, Sim, CodeAt, Goes, M.Alu, Loaded, Room;
    var code := ExprCode(g, e);
    if op == Negate {
      t := NegateRuns(p, text, g, fuel, bp, sp, e, st, s);
    } else if op == Plus {
      PlusParts(p, g, fuel, bp, sp, e, st);
      t := EvalRuns(p, text, g, fuel, bp, sp, e, st, s);
    } else {
      hide ExprCode;
      var st1, k, alu, v := UnaryParts(p, g, fuel, bp, sp, op, e, st);
      CodeAtSplit(text, s.pc, code, [Op(M.PUSH), Op(M.IMM), Arg(k), Op(alu)]);
      var u := EvalRuns(p, text, g, fuel, bp, sp, e, st, s);
      GoesSim(p, text, bp, sp, st, s, st1, u);
      t := ConstantStep(p, text, bp, sp, st1, u, k, alu, v);
      GoesThen(p, text, bp, sp, st, s, st1, u, st1.(ax := v), t);
    }
  }

  lemma PlusParts(p: Program, g: Scope, fuel: nat, bp: int, sp: int, e: Expr, st: State)
    ensures Eval(p, g, fuel, bp, sp, Unary(Plus, e), st) == Eval(p, g, fuel, bp, sp, e, st)
    ensures ExprCode(g, Unary(Plus, e)) == ExprCode(g, e)
  {
  }

  lemma UnaryAlu(x: Word)
    ensures M.IsAlu(M.EQ) && M.Alu(M.EQ, x, 0) == Some(M.Truth(x == 0))
    ensures M.IsAlu(M.XOR) && M.Alu(M.XOR, x, 0xFFFF_FFFF) == Some(0xFFFF_FFFF - x)
  {
    XorMinusOne(x);
  }

  // An expression that is one immediate.
  lemma ConstantRuns(p: Program, text: Memory, g: Scope, fuel: nat, bp: int, sp: int, e: Expr, v: Word, st: State,
                     s: M.Machine)
    returns (t: M.Machine)
    requires Ready(p, text, bp, sp, st, s, ExprCode(g, e)) && ExprCode(g, e) == [Op(M.IMM), Arg(v)]
    requires Eval(p, g, fuel, bp, sp, e, st) == Done(st.(ax := v))
    ensures Completes(p, text, bp, sp, st, s, ExprCode(g, e), Eval(p, g, fuel, bp, sp, e, st).st, t)
  {
    hide Goes, Loaded, CodeAt, Sim, ExprCode, Eval;
    ImmStep(p, text, bp, sp, st, s, v);
    t := s.(pc := s.pc + 8, ax := v);
  }

  // `!e` compares with 0, `~e` flips all bits.
  lemma UnaryParts(p: Program, g: Scope, fuel: nat, bp: int, sp: int, op: UnOp, e: Expr, st: State)
    returns (st1: State, k: Word, alu: Word, v: Word)
    requires (op == Not || op == Complement) && Eval(p, g, fuel, bp, sp, Unary(op, e), st).Done?
    ensures Eval(p, g, fuel, bp, sp, e, st) == Done(st1) && Room(p, sp, 1)
    ensures Eval(p, g, fuel, bp, sp, Unary(op, e), st) == Done(st1.(ax := v))
    ensures M.IsAlu(alu) && M.Alu(alu, st1.ax, k) == Some(v)
    ensures ExprCode(g, Unary(op, e)) == ExprCode(g, e) + [Op(M.PUSH), Op(M.IMM), Arg(k), Op(alu)]
  {
    hide Room, ExprCode, M.Alu, M.IsAlu;
    CodeShape.CodeOfUnary(g, e);
    st1 := Eval(p, g, fuel, bp, sp, e, st).st;
    k := if op == Not then 0 else 0xFFFF_FFFF;
    alu := if op == Not then M.EQ else M.XOR;
    v := if op == Not then M.Truth(st1.ax == 0) else 0xFFFF_FFFF - st1.ax;
    UnaryAlu(st1.ax);
  }

  lemma {:induction false} NegateRuns(p: Program, text: Memory, g: Scope, fuel: nat, bp: int, sp: int, e: Expr,
                                      st: State, s: M.Machine)
    returns (t: M.Machine)
    requires Ready(p, text, bp, sp, st, s, ExprCode(g, Unary(Negate, e)))
    requires Eval(p, g, fuel, bp, sp, Unary(Negate, e), st).Done?
    ensures Completes(p, text, bp, sp, st, s, ExprCode(g, Unary(Negate, e)),
                      Eval(p, g, fuel, bp, sp, Unary(Negate, e), st).st, t)
    decreases fuel, Unary(Negate, e), 2
  {
    hide Eval, ExprCode, Sim, CodeAt, Goes, Pushed, M.Alu, Loaded, ToWord, Room;
    var code, st0 := ExprCode(g, e), st.(ax := 0xFFFF_FFFF);
    var st1 := NegateParts(p, g, fuel, bp, sp, e, st);
    var v := ToWord(-(st1.ax as int));
    TimesMinusOne(st1.ax);
    CodeAtInfix(text, s.pc, [Op(M.IMM), Arg(0xFFFF_FFFF)], code, [Op(M.MUL)]);
    ImmStep(p, text, bp, sp, st, s, 0xFFFF_FFFF);
    var u := GoesPush(p, text, bp, sp, st, s, st0, s.(pc := s.pc + 8, ax := 0xFFFF_FFFF));
    PushedSim(p, text, bp, sp, st, s, 0xFFFF_FFFF, st0, u);
    var w := EvalRuns(p, text, g, fuel, bp, sp - 4, e, st0, u);
    PushedThen(p, text, bp, sp, st, s, 0xFFFF_FFFF, st0, u, st1, w);
    t := AluStep(p, text, bp, sp, st, s, 0xFFFF_FFFF, st1, w, M.MUL, v);
  }

  lemma NegateParts(p: Program, g: Scope, fuel: nat, bp: int, sp: int, e: Expr, st: State) returns (st1: State)
    requires Eval(p, g, fuel, bp, sp, Unary(Negate, e), st).Done?
    ensures Eval(p, g, fuel, bp, sp - 4, e, st.(ax := 0xFFFF_FFFF)) == Done(st1) && Room(p, sp, 1)
    ensures Eval(p, g, fuel, bp, sp, Unary(Negate, e), st) == Done(st1.(ax := ToWord(-(st1.ax as int))))
    ensures ExprCode(g, Unary(Negate, e)) == [Op(M.IMM), Arg(0xFFFF_FFFF)] + [Op(M.PUSH)] + ExprCode(g, e) + [Op(M.MUL)]
  {
    hide ToWord, Room;
    st1 := Eval(p, g, fuel, bp, sp - 4, e, st.(ax := 0xFFFF_FFFF)).st;
  }

  lemma {:induction false} EvalLoadRuns(p: Program, text: Memory, g: Scope, fuel: nat, bp: int, sp: int, e: Expr,
                                        st: State, s: M.Machine)
    returns (t: M.Machine)
    requires Ready(p, text, bp, sp, st, s, ExprCode(g, e))
    requires EvalLoad(p, g, fuel, bp, sp, e, st).Done?
    ensures Completes(p, text, bp, sp, st, s, ExprCode(g, e), EvalLoad(p, g, fuel, bp, sp, e, st).st, t)
    decreases fuel, e, 3
  {
    hide EvalAddress, ExprCode, TypeOf, Sim, CodeAt, Goes, LoadAt, Loaded, DropLast;
    var st1 := EvalAddress(p, g, fuel, bp, sp, e, st).st;
    var op := LoadOp(TypeOf(g, e));
    var v := LoadAt(op, st1.mem, st1.ax).value;
    AddressOfLvalue(p, g, fuel, bp, sp, e, st);
    LvalueCode(g, e);
    var code := DropLast(ExprCode(g, e));
    assert EvalLoad(p, g, fuel, bp, sp, e, st) == Done(st1.(ax := v));
    LoadOpIsLoad(TypeOf(g, e));
    hide EvalLoad, LoadOp;
    CodeAtSplit(text, s.pc, code, [Op(op)]);
    var u := EvalAddressRuns(p, text, g, fuel, bp, sp, e, st, s);
    GoesSim(p, text, bp, sp, st, s, st1, u);
    LoadStep(p, text, bp, sp, st1, u, op, v);
    t := u.(pc := u.pc + 4, ax := v);
    GoesThen(p, text, bp, sp, st, s, st1, u, st1.(ax := v), t);
  }

  lemma LoadOpIsLoad(t: int)
    ensures LoadOp(t) in {M.LI, M.LC}
  {
  }

  // The address of an lvalue: its code without the load at the end.
  lemma {:induction false} EvalAddressRuns(p: Program, text: Memory, g: Scope, fuel: nat, bp: int, sp: int, e: Expr,
                                           st: State, s: M.Machine)
    returns (t: M.Machine)
    requires Ready(p, text, bp, sp, st, s, DropLast(ExprCode(g, e)))
    requires EvalAddress(p, g, fuel, bp, sp, e, st).Done?
    ensures Completes(p, text, bp, sp, st, s, DropLast(ExprCode(g, e)), EvalAddress(p, g, fuel, bp, sp, e, st).st, t)
    decreases fuel, e, 2
  {
    match e
    case Ident(x) =>
      if Lookup(g, x).class_ == Local {
        var k := ToWord(g.indexOfBp - Signed(Lookup(g, x).value));
        assert DropLast(ExprCode(g, e)) == [Op(M.LEA), Arg(k)];
        hide Sim, CodeAt, Goes, Loaded;
        LeaStep(p, text, bp, sp, st, s, k);
        t := s.(pc := s.pc + 8, ax := LocalAddress(g, bp, x));
      } else {
        var v := Lookup(g, x).value;
        assert DropLast(ExprCode(g, e)) == [Op(M.IMM), Arg(v)];
        hide Sim, CodeAt, Goes, Loaded;
        ImmStep(p, text, bp, sp, st, s, v);
        t := s.(pc := s.pc + 8, ax := v);
      }
    case Deref(e1) =>
      assert DropLast(ExprCode(g, e)) == ExprCode(g, e1);
      hide ExprCode, Eval, Completes, Ready;
      t := EvalRuns(p, text, g, fuel, bp, sp, e1, st, s);
    case Index(a, i) => t := IndexRuns(p, text, g, fuel, bp, sp, a, i, st, s);
  }

  lemma IndexCode(g: Scope, a: Expr, i: Expr)
    ensures DropLast(ExprCode(g, Index(a, i)))
         == ExprCode(g, a) + [Op(M.PUSH)] + ExprCode(g, i) + (Scale(TypeOf(g, a)) + [Op(M.ADD)])
  {
    var load := Op(LoadOp(TypeOf(g, a) - PTR_TYPE));
    assert ExprCode(g, Index(a, i))
        == (ExprCode(g, a) + [Op(M.PUSH)] + ExprCode(g, i) + (Scale(TypeOf(g, a)) + [Op(M.ADD)])) + [load];
  }

  lemma IndexParts(p: Program, g: Scope, fuel: nat, bp: int, sp: int, a: Expr, i: Expr, st: State)
    returns (r: ArgsResult)
    requires EvalAddress(p, g, fuel, bp, sp, Index(a, i), st).Done?
    ensures r == EvalPair(p, g, fuel, bp, sp, Index(a, i), a, i, st) && r.Values? && |r.vs| == 2
    ensures Room(p, sp, Depth(TypeOf(g, a)))
    ensures EvalAddress(p, g, fuel, bp, sp, Index(a, i), st)
         == Done(r.st.(ax := ToWord(r.vs[0] + Scaled(TypeOf(g, a), r.vs[1]))))
  {
    hide EvalPair, TypeOf, Room, Depth, Scaled, ToWord;
    r := EvalPair(p, g, fuel, bp, sp, Index(a, i), a, i, st);
  }

  lemma {:induction false} IndexRuns(p: Program, text: Memory, g: Scope, fuel: nat, bp: int, sp: int, a: Expr, i: Expr,
                                     st: State, s: M.Machine)
    returns (t: M.Machine)
    requires Ready(p, text, bp, sp, st, s, DropLast(ExprCode(g, Index(a, i))))
    requires EvalAddress(p, g, fuel, bp, sp, Index(a, i), st).Done?
    ensures Completes(p, text, bp, sp, st, s, DropLast(ExprCode(g, Index(a, i))),
                      EvalAddress(p, g, fuel, bp, sp, Index(a, i), st).st, t)
    decreases fuel, Index(a, i), 1
  {
    hide EvalAddress, Eval, EvalPair, ExprCode, TypeOf, Sim, CodeAt, Goes, Pushed, Scaled, Scale, Loaded, ToWord, Room,
         Depth, DropLast;
    var ty := TypeOf(g, a);
    var ca, ci, tail := ExprCode(g, a), ExprCode(g, i), Scale(ty) + [Op(M.ADD)];
    var r := IndexParts(p, g, fuel, bp, sp, a, i, st);
    IndexCode(g, a, i);
    CodeAtInfix(text, s.pc, ca, ci, tail);
    var u := EvalPairRuns(p, text, g, fuel, bp, sp, Index(a, i), a, i, st, s);
    t := ScaledStep(p, text, bp, sp, st, s, r.vs[0], r.st, u, ty, M.ADD);
  }

  lemma PairParts(p: Program, g: Scope, fuel: nat, bp: int, sp: int, e: Expr, a: Expr, b: Expr, st: State)
    returns (st1: State, st2: State)
    requires a < e && b < e && EvalPair(p, g, fuel, bp, sp, e, a, b, st).Values?
    ensures Eval(p, g, fuel, bp, sp, a, st) == Done(st1) && Eval(p, g, fuel, bp, sp - 4, b, st1) == Done(st2)
    ensures Room(p, sp, 1)
    ensures EvalPair(p, g, fuel, bp, sp, e, a, b, st) == Values([st1.ax, st2.ax], st2)
  {
    hide Eval, Room;
    st1 := Eval(p, g, fuel, bp, sp, a, st).st;
    st2 := Eval(p, g, fuel, bp, sp - 4, b, st1).st;
  }

  lemma {:induction false} EvalPairRuns(p: Program, text: Memory, g: Scope, fuel: nat, bp: int, sp: int, e: Expr,
                                        a: Expr, b: Expr, st: State, s: M.Machine)
    returns (t: M.Machine)
    requires a < e && b < e
    requires Ready(p, text, bp, sp, st, s, ExprCode(g, a) + [Op(M.PUSH)] + ExprCode(g, b))
    requires EvalPair(p, g, fuel, bp, sp, e, a, b, st).Values?
    ensures var r := EvalPair(p, g, fuel, bp, sp, e, a, b, st);
      Leaves(p, text, bp, sp, st, s, ExprCode(g, a) + [Op(M.PUSH)] + ExprCode(g, b), r.vs[0], r.st, t)
    decreases fuel, e, 0
  {
    hide Eval, EvalPair, ExprCode, Sim, CodeAt, Goes, Pushed, Loaded, Room;
    var ca, cb := ExprCode(g, a), ExprCode(g, b);
    var st1, st2 := PairParts(p, g, fuel, bp, sp, e, a, b, st);
    CodeAtSplit(text, s.pc, ca + [Op(M.PUSH)], cb);
    CodeAtSplit(text, s.pc, ca, [Op(M.PUSH)]);
    var u := EvalRuns(p, text, g, fuel, bp, sp, a, st, s);
    var w := GoesPush(p, text, bp, sp, st, s, st1, u);
    PushedSim(p, text, bp, sp, st, s, st1.ax, st1, w);
    t := EvalRuns(p, text, g, fuel, bp, sp - 4, b, st1, w);
    PushedThen(p, text, bp, sp, st, s, st1.ax, st1, w, st2, t);
  }

  lemma {:induction false} BinaryRuns(p: Program, text: Memory, g: Scope, fuel: nat, bp: int, sp: int, op: BinOp,
                                      a: Expr, b: Expr, st: State, s: M.Machine)
    returns (t: M.Machine)
    requires Ready(p, text, bp, sp, st, s, ExprCode(g, Binary(op, a, b)))
    requires Eval(p, g, fuel, bp, sp, Binary(op, a, b), st).Done?
    ensures Completes(p, text, bp, sp, st, s, ExprCode(g, Binary(op, a, b)),
                      Eval(p, g, fuel, bp, sp, Binary(op, a, b), st).st, t)
    decreases fuel, Binary(op, a, b), 3
  {
    hide Eval, EvalPair, ExprCode, TypeOf, Sim, CodeAt, Goes, Pushed, BinaryValue, BinaryTail, Loaded, Depth, Scaled,
         Scale, Room;
    var ta, tb := TypeOf(g, a), TypeOf(g, b);
    var ca, cb, tail := ExprCode(g, a), ExprCode(g, b), BinaryTail(op, ta, tb);
    var r, v := BinaryParts(p, g, fuel, bp, sp, op, a, b, st);
    CodeAtInfix(text, s.pc, ca, cb, tail);
    var u := EvalPairRuns(p, text, g, fuel, bp, sp, Binary(op, a, b), a, b, st, s);
    t := BinaryStep(p, text, bp, sp, st, s, r.vs[0], r.st, u, op, ta, tb, v);
  }

  lemma BinaryParts(p: Program, g: Scope, fuel: nat, bp: int, sp: int, op: BinOp, a: Expr, b: Expr, st: State)
    returns (r: ArgsResult, v: Word)
    requires Eval(p, g, fuel, bp, sp, Binary(op, a, b), st).Done?
    ensures r == EvalPair(p, g, fuel, bp, sp, Binary(op, a, b), a, b, st) && r.Values? && |r.vs| == 2
    ensures op in {BAdd, BSub} ==> Room(p, sp, Depth(TypeOf(g, a)))
    ensures BinaryValue(op, TypeOf(g, a), TypeOf(g, b), r.vs[0], r.vs[1]) == Some(v)
    ensures Eval(p, g, fuel, bp, sp, Binary(op, a, b), st) == Done(r.st.(ax := v))
    ensures ExprCode(g, Binary(op, a, b))
         == ExprCode(g, a) + [Op(M.PUSH)] + ExprCode(g, b) + BinaryTail(op, TypeOf(g, a), TypeOf(g, b))
  {
    hide EvalPair, TypeOf, BinaryValue, BinaryTail, Room, Depth;
    r := EvalPair(p, g, fuel, bp, sp, Binary(op, a, b), a, b, st);
    v := BinaryValue(op, TypeOf(g, a), TypeOf(g, b), r.vs[0], r.vs[1]).value;
  }

  lemma StepParts(p: Program, g: Scope, fuel: nat, bp: int, sp: int, up: bool, e: Expr, st: State)
    returns (st1: State, v: Word)
    requires EvalStep(p, g, fuel, bp, sp, up, e, st).Done?
    ensures var t := TypeOf(g, e);
      && EvalAddress(p, g, fuel, bp, sp, e, st) == Done(st1) && LoadAt(LoadOp(t), st1.mem, st1.ax) == Some(v)
      && Room(p, sp, 2)
      && EvalStep(p, g, fuel, bp, sp, up, e, st) == StoreAt(StoreOp(t), st1.mem, st1.ax, Moved(v, t, up))
      && ExprCode(g, PreStep(up, e)) == DropLast(ExprCode(g, e)) + StepCode(LoadOp(t), t, up)
  {
    var t := TypeOf(g, e);
    st1 := EvalAddress(p, g, fuel, bp, sp, e, st).st;
    v := LoadAt(LoadOp(t), st1.mem, st1.ax).value;
    AddressOfLvalue(p, g, fuel, bp, sp, e, st);
    hide EvalAddress, TypeOf, LoadAt, StoreAt, Moved, Room;
    LvalueCode(g, e);
    hide LoadOp, StoreOp, DropLast, StepCode;
  }

  lemma {:induction false} EvalStepRuns(p: Program, text: Memory, g: Scope, fuel: nat, bp: int, sp: int, up: bool,
                                        e: Expr, st: State, s: M.Machine)
    returns (t: M.Machine)
    requires Ready(p, text, bp, sp, st, s, ExprCode(g, PreStep(up, e)))
    requires EvalStep(p, g, fuel, bp, sp, up, e, st).Done?
    ensures Completes(p, text, bp, sp, st, s, ExprCode(g, PreStep(up, e)), EvalStep(p, g, fuel, bp, sp, up, e, st).st,
                      t)
    decreases fuel, e, 3
  {
    hide EvalAddress, EvalStep, ExprCode, TypeOf, Sim, CodeAt, Goes, LoadAt, StoreAt, Moved, DropLast, Loaded, Room,
         ToWord;
    var ty := TypeOf(g, e);
    var code := DropLast(ExprCode(g, e));
    var st1, v := StepParts(p, g, fuel, bp, sp, up, e, st);
    CodeAtSplit(text, s.pc, code, StepCode(LoadOp(ty), ty, up));
    var u := EvalAddressRuns(p, text, g, fuel, bp, sp, e, st, s);
    GoesSim(p, text, bp, sp, st, s, st1, u);
    t := StepStep(p, text, bp, sp, st1, u, ty, up, v);
    GoesThen(p, text, bp, sp, st, s, st1, u, EvalStep(p, g, fuel, bp, sp, up, e, st).st, t);
  }

  lemma {:induction false} PostStepRuns(p: Program, text: Memory, g: Scope, fuel: nat, bp: int, sp: int, up: bool,
                                        e: Expr, st: State, s: M.Machine)
    returns (t: M.Machine)
    requires Ready(p, text, bp, sp, st, s, ExprCode(g, PostStep(up, e)))
    requires Eval(p, g, fuel, bp, sp, PostStep(up, e), st).Done?
    ensures Completes(p, text, bp, sp, st, s, ExprCode(g, PostStep(up, e)),
                      Eval(p, g, fuel, bp, sp, PostStep(up, e), st).st, t)
    decreases fuel, PostStep(up, e), 3
  {
    hide Eval, EvalStep, ExprCode, TypeOf, Sim, CodeAt, Goes, Moved, Loaded, M.Alu, Room, ToWord;
    var ty := TypeOf(g, e);
    var code, undo := ExprCode(g, PreStep(up, e)), UndoStep(ty, up);
    var st1 := PostStepParts(p, g, fuel, bp, sp, up, e, st);
    var v := Moved(st1.ax, ty, !up);
    var op := if up then M.SUB else M.ADD;
    MovedIsAlu(st1.ax, ty, up);
    CodeAtSplit(text, s.pc, code, undo);
    var u := EvalStepRuns(p, text, g, fuel, bp, sp, up, e, st, s);
    GoesSim(p, text, bp, sp, st, s, st1, u);
    t := ConstantStep(p, text, bp, sp, st1, u, StepSize(ty), op, v);
    GoesThen(p, text, bp, sp, st, s, st1, u, st1.(ax := v), t);
  }

  // Undoing a step is an addition or a subtraction.
  lemma MovedIsAlu(v: Word, t: int, up: bool)
    ensures M.Alu(if up then M.SUB else M.ADD, v, StepSize(t)) == Some(Moved(v, t, !up))
  {
    hide ToWord;
  }

  lemma PostStepParts(p: Program, g: Scope, fuel: nat, bp: int, sp: int, up: bool, e: Expr, st: State)
    returns (st1: State)
    requires Eval(p, g, fuel, bp, sp, PostStep(up, e), st).Done?
    ensures EvalStep(p, g, fuel, bp, sp, up, e, st) == Done(st1) && Room(p, sp, 1)
    ensures Eval(p, g, fuel, bp, sp, PostStep(up, e), st) == Done(st1.(ax := Moved(st1.ax, TypeOf(g, e), !up)))
    ensures ExprCode(g, PostStep(up, e)) == ExprCode(g, PreStep(up, e)) + UndoStep(TypeOf(g, e), up)
  {
    assert EvalStep(p, g, fuel, bp, sp, up, e, st).Done? by { hide EvalStep, TypeOf, Moved; }
    assert Room(p, sp, 1) by { hide Eval, EvalAddress, LoadAt, StoreAt, Moved; }
    hide EvalStep, TypeOf, Moved, Room;
    st1 := EvalStep(p, g, fuel, bp, sp, up, e, st).st;
  }

  lemma {:induction false} AssignRuns(p: Program, text: Memory, g: Scope, fuel: nat, bp: int, sp: int, l: Expr,
                                      r: Expr, st: State, s: M.Machine)
    returns (t: M.Machine)
    requires Ready(p, text, bp, sp, st, s, ExprCode(g, Assign(l, r)))
    requires Eval(p, g, fuel, bp, sp, Assign(l, r), st).Done?
    ensures Completes(p, text, bp, sp, st, s, ExprCode(g, Assign(l, r)), Eval(p, g, fuel, bp, sp, Assign(l, r), st).st,
                      t)
    decreases fuel, Assign(l, r), 3
  {
    hide Eval, EvalAddress, ExprCode, TypeOf, Sim, CodeAt, Goes, Pushed, StoreAt, DropLast, Loaded, Room, StoreOp;
    var op := StoreOp(TypeOf(g, l));
    var cl, cr := DropLast(ExprCode(g, l)), ExprCode(g, r);
    var st1, st2 := AssignParts(p, g, fuel, bp, sp, l, r, st);
    CodeAtInfix(text, s.pc, cl, cr, [Op(op)]);
    var u := EvalAddressRuns(p, text, g, fuel, bp, sp, l, st, s);
    var w := GoesPush(p, text, bp, sp, st, s, st1, u);
    PushedSim(p, text, bp, sp, st, s, st1.ax, st1, w);
    var x := EvalRuns(p, text, g, fuel, bp, sp - 4, r, st1, w);
    PushedThen(p, text, bp, sp, st, s, st1.ax, st1, w, st2, x);
    t := StoreStep(p, text, bp, sp, st, s, st1.ax, st2, x, op);
  }

  lemma AssignParts(p: Program, g: Scope, fuel: nat, bp: int, sp: int, l: Expr, r: Expr, st: State)
    returns (st1: State, st2: State)
    requires Eval(p, g, fuel, bp, sp, Assign(l, r), st).Done?
    ensures EvalAddress(p, g, fuel, bp, sp, l, st) == Done(st1) && Eval(p, g, fuel, bp, sp - 4, r, st1) == Done(st2)
    ensures Room(p, sp, 1)
    ensures StoreOp(TypeOf(g, l)) in {M.SI, M.SC}
    ensures Eval(p, g, fuel, bp, sp, Assign(l, r), st) == StoreAt(StoreOp(TypeOf(g, l)), st2.mem, st1.ax, st2.ax)
    ensures ExprCode(g, Assign(l, r))
         == DropLast(ExprCode(g, l)) + [Op(M.PUSH)] + ExprCode(g, r) + [Op(StoreOp(TypeOf(g, l)))]
  {
    assert StoreOp(TypeOf(g, l)) in {M.SI, M.SC} by { hide TypeOf; }
    hide EvalAddress, StoreAt, StoreOp, TypeOf, Room, DropLast;
    st1 := EvalAddress(p, g, fuel, bp, sp, l, st).st;
    st2 := Eval(p, g, fuel, bp, sp - 4, r, st1).st;
  }

  // ----- jumps -----

  // Both arms of a conditional end at the same place.
  lemma {:induction false} ConditionalRuns(p: Program, text: Memory, g: Scope, fuel: nat, bp: int, sp: int, c: Expr,
                                           a: Expr, b: Expr, st: State, s: M.Machine)
    returns (t: M.Machine)
    requires Ready(p, text, bp, sp, st, s, ExprCode(g, Conditional(c, a, b)))
    requires Eval(p, g, fuel, bp, sp, Conditional(c, a, b), st).Done?
    ensures Completes(p, text, bp, sp, st, s, ExprCode(g, Conditional(c, a, b)),
                      Eval(p, g, fuel, bp, sp, Conditional(c, a, b), st).st, t)
    decreases fuel, Conditional(c, a, b), 3
  {
    var cc, ca, cb := ExprCode(g, c), ExprCode(g, a), ExprCode(g, b);
    var st1 := Eval(p, g, fuel, bp, sp, c, st).st;
    var taken := if st1.ax != 0 then a else b;
    var st2 := Eval(p, g, fuel, bp, sp, taken, st1).st;
    assert ExprCode(g, Conditional(c, a, b)) == BranchCode(cc, ca, cb);
    assert Eval(p, g, fuel, bp, sp, Conditional(c, a, b), st) == Done(st2);
    assert InSpace(text);
    hide Eval, ExprCode, Sim, CodeAt, Goes, Loaded;
    CodeAtCondition(text, s.pc, cc, ca, cb);
    var u := EvalRuns(p, text, g, fuel, bp, sp, c, st, s);
    var w := EnterArm(p, text, bp, sp, st, s, cc, ca, cb, st1, u);
    GoesSim(p, text, bp, sp, st, s, st1, w);
    var x := EvalRuns(p, text, g, fuel, bp, sp, taken, st1, w);
    GoesThen(p, text, bp, sp, st, s, st1, w, st2, x);
    t := LeaveArm(p, text, bp, sp, st, s, cc, ca, cb, st1.ax != 0, st2, x);
  }

  // Where the parts of a two-armed branch stand.
  lemma BranchLayout(text: Memory, pos: int, c: Code, a: Code, b: Code) returns (entry: int, front: int)
    requires InSpace(text) && CodeAt(text, pos, BranchCode(c, a, b))
    ensures entry == pos + 4 * |c| + 8 && front == entry + 4 * |a|
    ensures CodeAt(text, pos, c) && CodeAt(text, pos + 4 * |c|, [Op(M.JZ), Rel(|a| + 3)]) && CodeAt(text, entry, a)
    ensures CodeAt(text, front, [Op(M.JMP), Rel(|b| + 1)]) && CodeAt(text, front + 8, b)
    ensures 0 <= pos && front + 8 + 4 * |b| < WORD_LIMIT
  {
    entry, front := pos + 4 * |c| + 8, pos + 4 * |c| + 8 + 4 * |a|;
    var first := c + [Op(M.JZ), Rel(|a| + 3)] + a;
    CodeAddress(text, pos, BranchCode(c, a, b));
    CodeAtJump(text, pos, first, M.JMP, |b| + 1, b);
    CodeAtJump(text, pos, c, M.JZ, |a| + 3, a);
  }

  lemma CodeAtCondition(text: Memory, pos: int, c: Code, a: Code, b: Code)
    requires CodeAt(text, pos, BranchCode(c, a, b))
    ensures CodeAt(text, pos, c)
  {
    CodeAtJump(text, pos, c + [Op(M.JZ), Rel(|a| + 3)] + a, M.JMP, |b| + 1, b);
    CodeAtJump(text, pos, c, M.JZ, |a| + 3, a);
  }

  // After the condition, to the arm it selects.
  lemma EnterArm(p: Program, text: Memory, bp: int, sp: int, st: State, s: M.Machine, c: Code, a: Code, b: Code,
                 st1: State, u: M.Machine)
    returns (w: M.Machine)
    requires InSpace(text) && CodeAt(text, s.pc, BranchCode(c, a, b))
    requires Goes(p, text, bp, sp, st, s, st1, u) && u.pc == s.pc + 4 * |c|
    ensures Goes(p, text, bp, sp, st, s, st1, w)
    ensures w.pc == ArmStart(s.pc, c, a, st1.ax != 0) && CodeAt(text, w.pc, if st1.ax != 0 then a else b)
  {
    hide Sim, CodeAt, Goes;
    var entry, front := BranchLayout(text, s.pc, c, a, b);
    GoesSim(p, text, bp, sp, st, s, st1, u);
    JumpStep(p, text, bp, sp, st1, u, M.JZ, |a| + 3);
    w := u.(pc := if st1.ax == 0 then front + 8 else entry);
    GoesThen(p, text, bp, sp, st, s, st1, u, st1, w);
  }

  function ArmStart(pos: int, c: Code, a: Code, first: bool): int {
    pos + 4 * |c| + 8 + (if first then 0 else 4 * |a| + 8)
  }

  // From the end of either arm to the end of the whole.
  lemma LeaveArm(p: Program, text: Memory, bp: int, sp: int, st: State, s: M.Machine, c: Code, a: Code, b: Code,
                 first: bool, st2: State, x: M.Machine)
    returns (t: M.Machine)
    requires InSpace(text) && CodeAt(text, s.pc, BranchCode(c, a, b))
    requires Goes(p, text, bp, sp, st, s, st2, x)
    requires x.pc == ArmStart(s.pc, c, a, first) + 4 * (if first then |a| else |b|)
    ensures Completes(p, text, bp, sp, st, s, BranchCode(c, a, b), st2, t) && t.mem == x.mem
  {
    hide Sim, CodeAt, Goes;
    var entry, front := BranchLayout(text, s.pc, c, a, b);
    t := x;
    if first {
      GoesSim(p, text, bp, sp, st, s, st2, x);
      JumpStep(p, text, bp, sp, st2, x, M.JMP, |b| + 1);
      t := x.(pc := front + 8 + 4 * |b|);
      GoesThen(p, text, bp, sp, st, s, st2, x, st2, t);
    }
  }

  lemma {:induction false} ShortCircuitRuns(p: Program, text: Memory, g: Scope, fuel: nat, bp: int, sp: int, jump: Word,
                                            e: Expr, a: Expr, b: Expr, st: State, s: M.Machine)
    returns (t: M.Machine)
    requires (jump == M.JNZ && e == LogicalOr(a, b)) || (jump == M.JZ && e == LogicalAnd(a, b))
    requires Ready(p, text, bp, sp, st, s, ExprCode(g, e))
    requires Eval(p, g, fuel, bp, sp, e, st).Done?
    ensures Completes(p, text, bp, sp, st, s, ExprCode(g, e), Eval(p, g, fuel, bp, sp, e, st).st, t)
    decreases fuel, e, 3
  {
    hide Eval, ExprCode, Sim, CodeAt, Goes, Loaded, InSpace;
    var ca, cb := ExprCode(g, a), ExprCode(g, b);
    var st1, st2 := ShortCircuitParts(p, g, fuel, bp, sp, jump, e, a, b, st);
    var skip := (jump == M.JZ) == (st1.ax == 0);
    LoadedSpace(p, text);
    CodeAddress(text, s.pc, ShortCode(jump, ca, cb));
    CodeAtJump(text, s.pc, ca, jump, |cb| + 1, cb);
    var u := EvalRuns(p, text, g, fuel, bp, sp, a, st, s);
    GoesSim(p, text, bp, sp, st, s, st1, u);
    JumpStep(p, text, bp, sp, st1, u, jump, |cb| + 1);
    t := u.(pc := if skip then u.pc + 8 + 4 * |cb| else u.pc + 8);
    GoesThen(p, text, bp, sp, st, s, st1, u, st1, t);
    if !skip {
      GoesSim(p, text, bp, sp, st, s, st1, t);
      var w := EvalRuns(p, text, g, fuel, bp, sp, b, st1, t);
      GoesThen(p, text, bp, sp, st, s, st1, t, st2, w);
      t := w;
    }
  }

  // The right operand counts only when the left one does not decide.
  lemma ShortCircuitParts(p: Program, g: Scope, fuel: nat, bp: int, sp: int, jump: Word, e: Expr, a: Expr, b: Expr,
                          st: State)
    returns (st1: State, st2: State)
    requires (jump == M.JNZ && e == LogicalOr(a, b)) || (jump == M.JZ && e == LogicalAnd(a, b))
    requires Eval(p, g, fuel, bp, sp, e, st).Done?
    ensures ExprCode(g, e) == ShortCode(jump, ExprCode(g, a), ExprCode(g, b))
    ensures Eval(p, g, fuel, bp, sp, a, st) == Done(st1) && Eval(p, g, fuel, bp, sp, e, st) == Done(st2)
    ensures if (jump == M.JZ) == (st1.ax == 0) then st2 == st1 else Eval(p, g, fuel, bp, sp, b, st1) == Done(st2)
  {
    st1, st2 := Eval(p, g, fuel, bp, sp, a, st).st, Eval(p, g, fuel, bp, sp, e, st).st;
  }

  // ----- calls -----

  lemma NoArgs(p: Program, text: Memory, g: Scope, fuel: nat, bp: int, sp: int, st: State, s: M.Machine)
    requires Sim(p, text, bp, sp, st, s)
    ensures EvalArgs(p, g, fuel, bp, sp, Nil, st) == Values([], st) && ArgsCode(g, Nil) == []
    ensures ArgsPushed(p, text, bp, sp, st, s, [], st, s)
  {
    M.ReachesSelf(s);
    hide M.Reaches, Sim;
  }

  lemma ArgsParts(p: Program, g: Scope, fuel: nat, bp: int, sp: int, e: Expr, rest: List<Expr>, st: State)
    returns (st1: State, r: ArgsResult)
    requires EvalArgs(p, g, fuel, bp, sp, Cons(e, rest), st).Values?
    ensures Eval(p, g, fuel, bp, sp, e, st) == Done(st1) && Room(p, sp, 1)
    ensures r == EvalArgs(p, g, fuel, bp, sp - 4, rest, st1) && r.Values?
    ensures EvalArgs(p, g, fuel, bp, sp, Cons(e, rest), st) == Values([st1.ax] + r.vs, r.st)
    ensures ArgsCode(g, Cons(e, rest)) == ExprCode(g, e) + [Op(M.PUSH)] + ArgsCode(g, rest)
  {
    hide Eval, ExprCode, Room;
    st1 := Eval(p, g, fuel, bp, sp, e, st).st;
    r := EvalArgs(p, g, fuel, bp, sp - 4, rest, st1);
  }

  lemma {:induction false} ArgsRuns(p: Program, text: Memory, g: Scope, fuel: nat, bp: int, sp: int, args: List<Expr>,
                                    st: State, s: M.Machine)
    returns (t: M.Machine)
    requires Ready(p, text, bp, sp, st, s, ArgsCode(g, args))
    requires EvalArgs(p, g, fuel, bp, sp, args, st).Values?
    ensures var r := EvalArgs(p, g, fuel, bp, sp, args, st);
      ArgsPushed(p, text, bp, sp, st, s, r.vs, r.st, t) && t.pc == s.pc + 4 * |ArgsCode(g, args)|
    decreases fuel, args, 1
  {
    hide Eval, EvalArgs, ExprCode, ArgsCode, Sim, CodeAt, Goes, Pushed, Loaded, ArgsPushed, Room;
    match args
    case Nil =>
      t := s;
      NoArgs(p, text, g, fuel, bp, sp, st, s);
    case Cons(e, rest) =>
      var c, cs := ExprCode(g, e), ArgsCode(g, rest);
      var st1, r := ArgsParts(p, g, fuel, bp, sp, e, rest, st);
      CodeAtSplit(text, s.pc, c + [Op(M.PUSH)], cs);
      CodeAtSplit(text, s.pc, c, [Op(M.PUSH)]);
      var u := EvalRuns(p, text, g, fuel, bp, sp, e, st, s);
      var w := GoesPush(p, text, bp, sp, st, s, st1, u);
      PushedSim(p, text, bp, sp, st, s, st1.ax, st1, w);
      t := ArgsRuns(p, text, g, fuel, bp, sp - 4, rest, st1, w);
      OneMoreArg(p, text, bp, sp, st, s, st1, w, r.vs, r.st, t);
  }

  lemma {:induction false} CallRuns(p: Program, text: Memory, g: Scope, fuel: nat, bp: int, sp: int, x: nat,
                                    args: List<Expr>, st: State, s: M.Machine)
    returns (t: M.Machine)
    requires Ready(p, text, bp, sp, st, s, ExprCode(g, Call(x, args)))
    requires Eval(p, g, fuel, bp, sp, Call(x, args), st).Done?
    ensures Completes(p, text, bp, sp, st, s, ExprCode(g, Call(x, args)),
                      Eval(p, g, fuel, bp, sp, Call(x, args), st).st, t)
    decreases fuel, Call(x, args), 3
  {
    hide Eval, EvalArgs, ExprCode, ArgsCode, CallFunction, Sim, CodeAt, ArgsPushed, FunctionAt, Lookup, Frame, ToWord,
         Loaded, InSpace, Room;
    var n, ca := Count(args), ArgsCode(g, args);
    var entry, f, r := CallExprParts(p, g, fuel, bp, sp, x, args, st);
    var tail := if n > 0 then [Op(M.ADJ), Arg(ToWord(n))] else [];
    var result := CallFunction(p, fuel - 1, f, sp, r.vs, r.st);
    LoadedSpace(p, text);
    CodeAtSplit(text, s.pc, ca + [Op(M.CALL), Arg(entry)], tail);
    CodeAtSplit(text, s.pc, ca, [Op(M.CALL), Arg(entry)]);
    var u := ArgsRuns(p, text, g, fuel, bp, sp, args, st, s);
    t := FunctionRuns(p, text, fuel - 1, bp, sp, entry, f, st, s, r.vs, r.st, u);
    if n > 0 {
      ArgsRoom(p, text, bp, sp, st, s, r.vs, r.st, u);
      RemoveArgs(p, text, bp, sp, st, s, result.st, t, n);
      t := t.(pc := t.pc + 8, sp := sp);
    } else {
      assert t.(sp := sp) == t;
    }
  }

  // A call that has a value: its function and the values of its arguments.
  lemma CallExprParts(p: Program, g: Scope, fuel: nat, bp: int, sp: int, x: nat, args: List<Expr>, st: State)
    returns (entry: Word, f: Routine, r: ArgsResult)
    requires Eval(p, g, fuel, bp, sp, Call(x, args), st).Done?
    ensures fuel > 0 && entry in p.funs && p.funs[entry] == f
    ensures r == EvalArgs(p, g, fuel, bp, sp, args, st) && r.Values? && |r.vs| == Count(args) == f.params
    ensures Eval(p, g, fuel, bp, sp, Call(x, args), st) == CallFunction(p, fuel - 1, f, sp, r.vs, r.st)
    ensures var tail := if Count(args) > 0 then [Op(M.ADJ), Arg(ToWord(Count(args)))] else [];
      ExprCode(g, Call(x, args)) == ArgsCode(g, args) + [Op(M.CALL), Arg(entry)] + tail
  {
    hide EvalArgs, ArgsCode, CallFunction, ToWord;
    entry := Lookup(g, x).value;
    f, r := p.funs[entry], EvalArgs(p, g, fuel, bp, sp, args, st);
  }

  lemma CallParts(p: Program, fuel: nat, f: Routine, sp: int, vs: seq<Word>, st: State)
    requires CallFunction(p, fuel, f, sp, vs, st).Done?
    ensures var sp' := FrameBase(sp, |vs|) - 4 * f.locals;
      var r := ExecAll(p, f.scope, fuel, FrameBase(sp, |vs|), sp', f.body, State(st.ax, Enter(st.mem, sp, vs, f.locals)));
      && p.limit <= sp' && !r.Undefined?
      && CallFunction(p, fuel, f, sp, vs, st).st == State(r.st.ax, Leave(st.mem.own, r.st.mem))
  {
    hide ExecAll, Enter, Leave;
  }

  lemma FunctionParts(text: Memory, entry: Word, f: Routine)
    requires FunctionAt(text, entry, f)
    ensures var body := StmtsCode(f.scope, f.body);
      && CodeAt(text, entry, [Op(M.ENT), Arg(ToWord(f.locals))])
      && CodeAt(text, entry + 8, body)
      && CodeAt(text, entry + 8 + 4 * |body|, [Op(M.LEV)])
  {
    var body := StmtsCode(f.scope, f.body);
    hide CodeAt, StmtsCode;
    CodeAtSplit(text, entry, [Op(M.ENT), Arg(ToWord(f.locals))] + body, [Op(M.LEV)]);
    CodeAtSplit(text, entry, [Op(M.ENT), Arg(ToWord(f.locals))], body);
  }

  // The callee owns what the caller owns and its frame, which lies below `sp`.
  lemma EnterOwns(m: UserMemory, sp: int, vs: seq<Word>, locals: nat, limit: int)
    requires FrameBase(sp, |vs|) - 4 * locals >= limit
    ensures m.own <= Enter(m, sp, vs, locals).own <= m.own + Range(limit, sp)
  {
  }

  lemma LoadedFunctionAt(p: Program, text: Memory, entry: Word, f: Routine)
    requires Loaded(p, text) && entry in p.funs && p.funs[entry] == f
    ensures FunctionAt(text, entry, f) && InSpace(text) && 0 <= p.limit
  {
    hide FunctionAt, InSpace;
  }

  lemma PushedArgsSim(p: Program, text: Memory, bp: int, sp: int, st0: State, s0: M.Machine, vs: seq<Word>, st: State,
                      s: M.Machine)
    requires ArgsPushed(p, text, bp, sp, st0, s0, vs, st, s)
    ensures Sim(p, text, bp, sp, st0, s0) && st.mem.own == st0.mem.own
  {
    hide Sim, M.Reaches, ArgsAt, Room, Frame;
  }

  // From the pushed arguments through the function back to the call site.
  lemma {:induction false} FunctionRuns(p: Program, text: Memory, fuel: nat, bp: int, sp: int, entry: Word, f: Routine,
                                        st0: State, s0: M.Machine, vs: seq<Word>, st: State, s: M.Machine)
    returns (t: M.Machine)
    requires Loaded(p, text) && InStack(bp, sp) && entry in p.funs && p.funs[entry] == f
    requires ArgsPushed(p, text, bp, sp, st0, s0, vs, st, s) && CodeAt(text, s.pc, [Op(M.CALL), Arg(entry)])
    requires CallFunction(p, fuel, f, sp, vs, st).Done?
    ensures var st' := CallFunction(p, fuel, f, sp, vs, st).st;
      && t.pc == s.pc + 8 && t.sp == sp - 4 * |vs|
      && M.Reaches(s0, t) && Sim(p, text, bp, sp, st0, s0) && Sim(p, text, bp, sp, st', t.(sp := sp))
      && Frame(s0.mem, t.mem, st0.mem.own, p.limit, sp) && st'.mem.own == st0.mem.own
    decreases fuel, f.body, 4
  {
    hide InSpace, ToWord;
    hide ExecAll, CallFunction, StmtsCode, Sim, CodeAt, ArgsPushed, FunctionAt, Linked, Returns, Enter, Leave, Loaded,
         Frame;
    var bp', sp' := FrameBase(sp, |vs|), FrameBase(sp, |vs|) - 4 * f.locals;
    var st1 := State(st.ax, Enter(st.mem, sp, vs, f.locals));
    var r := ExecAll(p, f.scope, fuel, bp', sp', f.body, st1);
    LoadedFunctionAt(p, text, entry, f);
    CallParts(p, fuel, f, sp, vs, st);
    FunctionParts(text, entry, f);
    PushedArgsSim(p, text, bp, sp, st0, s0, vs, st, s);
    var u, saved, ret := CallEnters(p, text, bp, sp, st0, s0, vs, st, s, entry, f.locals);
    t := BodyRuns(p, text, f.scope, fuel, bp', sp', f.body, st1, u, saved, ret);
    EnterOwns(st.mem, sp, vs, f.locals, p.limit);
    CallReturns(p, text, bp, sp, st0, s0, |vs|, u, sp', st1, saved, ret, r.st, t);
  }

  // The body of a function, up to and including the return.
  lemma {:induction false} BodyRuns(p: Program, text: Memory, g: Scope, fuel: nat, bp: int, sp: int, ss: List<Stmt>,
                                    st: State, s: M.Machine,
                                    saved: Word, ret: Word)
    returns (t: M.Machine)
    requires Ready(p, text, bp, sp, st, s, StmtsCode(g, ss)) && Linked(s.mem, st.mem.own, bp, sp, saved, ret)
    requires CodeAt(text, s.pc + 4 * |StmtsCode(g, ss)|, [Op(M.LEV)])
    requires !ExecAll(p, g, fuel, bp, sp, ss, st).Undefined?
    ensures Returns(p, text, bp, sp, st, s, saved, ret, ExecAll(p, g, fuel, bp, sp, ss, st).st, t)
    decreases fuel, ss, 3
  {
    hide ExecAll, StmtsCode, Sim, CodeAt, Linked, Returns, Loaded;
    t := ExecAllRuns(p, text, g, fuel, bp, sp, ss, st, s, saved, ret);
    var r := ExecAll(p, g, fuel, bp, sp, ss, st);
    if r.Normal? {
      t := LeaveStep(p, text, bp, sp, st, s, saved, ret, r.st, t);
    }
  }

  // ----- statements -----

  // A statement either completes, with the linkage of the frame intact, or returns.
  ghost predicate Proceeds(p: Program, text: Memory, bp: int, sp: int, st: State, s: M.Machine, code: Code,
                           saved: Word, ret: Word, r: Effect, t: M.Machine) {
    match r
    case Undefined => true
    case Normal(st1) => Completes(p, text, bp, sp, st, s, code, st1, t) && Linked(t.mem, st.mem.own, bp, sp, saved, ret)
    case Returned(st1) => Returns(p, text, bp, sp, st, s, saved, ret, st1, t)
  }

  lemma {:induction false} ExecRuns(p: Program, text: Memory, g: Scope, fuel: nat, bp: int, sp: int, c: Stmt,
                                    st: State, s: M.Machine,
                                    saved: Word, ret: Word)
    returns (t: M.Machine)
    requires Ready(p, text, bp, sp, st, s, StmtCode(g, c)) && Linked(s.mem, st.mem.own, bp, sp, saved, ret)
    requires !Exec(p, g, fuel, bp, sp, c, st).Undefined?
    ensures Proceeds(p, text, bp, sp, st, s, StmtCode(g, c), saved, ret, Exec(p, g, fuel, bp, sp, c, st), t)
    decreases fuel, c, 1
  {
    hide Eval, ExprCode, Sim, CodeAt, Linked, Loaded, Returns;
    match c
    case Empty => t := s; GoesSelf(p, text, bp, sp, st, s);
    case Return =>
      GoesSelf(p, text, bp, sp, st, s);
      t := LeaveStep(p, text, bp, sp, st, s, saved, ret, st, s);
    case Evaluate(e) =>
      t := EvalRuns(p, text, g, fuel, bp, sp, e, st, s);
      LinkKept(s.mem, t.mem, st.mem.own, p.limit, bp, sp, saved, ret);
    case ReturnValue(e) =>
      var st1 := Eval(p, g, fuel, bp, sp, e, st).st;
      CodeAtSplit(text, s.pc, ExprCode(g, e), [Op(M.LEV)]);
      var u := EvalRuns(p, text, g, fuel, bp, sp, e, st, s);
      t := LeaveStep(p, text, bp, sp, st, s, saved, ret, st1, u);
    case Block(ss) => t := ExecAllRuns(p, text, g, fuel, bp, sp, ss, st, s, saved, ret);
    case If(e, c1) => t := IfRuns(p, text, g, fuel, bp, sp, e, c1, st, s, saved, ret);
    case IfElse(e, c1, c2) => t := IfElseRuns(p, text, g, fuel, bp, sp, e, c1, c2, st, s, saved, ret);
    case While(e, c1) => t := WhileRuns(p, text, g, fuel, bp, sp, e, c1, st, s, saved, ret);
  }

  lemma {:induction false} ExecAllRuns(p: Program, text: Memory, g: Scope, fuel: nat, bp: int, sp: int, ss: List<Stmt>,
                                       st: State, s: M.Machine,
                                       saved: Word, ret: Word)
    returns (t: M.Machine)
    requires Ready(p, text, bp, sp, st, s, StmtsCode(g, ss)) && Linked(s.mem, st.mem.own, bp, sp, saved, ret)
    requires !ExecAll(p, g, fuel, bp, sp, ss, st).Undefined?
    ensures Proceeds(p, text, bp, sp, st, s, StmtsCode(g, ss), saved, ret, ExecAll(p, g, fuel, bp, sp, ss, st), t)
    decreases fuel, ss, 2
  {
    hide Exec, StmtCode, Sim, CodeAt, Goes, Linked, Loaded, Returns;
    match ss
    case Nil => t := s; GoesSelf(p, text, bp, sp, st, s);
    case Cons(c, rest) =>
      var r := Exec(p, g, fuel, bp, sp, c, st);
      var cc, cs := StmtCode(g, c), StmtsCode(g, rest);
      assert StmtsCode(g, ss) == cc + cs;
      assert r.Normal? ==> ExecAll(p, g, fuel, bp, sp, ss, st) == ExecAll(p, g, fuel, bp, sp, rest, r.st);
      assert r.Returned? ==> ExecAll(p, g, fuel, bp, sp, ss, st) == r;
      hide ExecAll, StmtsCode;
      CodeAtSplit(text, s.pc, cc, cs);
      t := ExecRuns(p, text, g, fuel, bp, sp, c, st, s, saved, ret);
      if r.Normal? {
        GoesSim(p, text, bp, sp, st, s, r.st, t);
        var u := ExecAllRuns(p, text, g, fuel, bp, sp, rest, r.st, t, saved, ret);
        ThenProceeds(p, text, bp, sp, st, s, r.st, t, cs, saved, ret, ExecAll(p, g, fuel, bp, sp, rest, r.st), u);
        t := u;
      }
  }

  // What follows a completed part.
  lemma ThenProceeds(p: Program, text: Memory, bp: int, sp: int, st: State, s: M.Machine, st1: State, t: M.Machine,
                     code: Code,
                     saved: Word, ret: Word, r: Effect, u: M.Machine)
    requires Goes(p, text, bp, sp, st, s, st1, t) && st1.mem.own == st.mem.own
    requires Proceeds(p, text, bp, sp, st1, t, code, saved, ret, r, u)
    ensures match r
      case Undefined => true
      case Normal(st2) =>
        Goes(p, text, bp, sp, st, s, st2, u) && u.pc == t.pc + 4 * |code| && Linked(u.mem, st.mem.own, bp, sp, saved, ret)
      case Returned(st2) => Returns(p, text, bp, sp, st, s, saved, ret, st2, u)
  {
    match r
    case Undefined =>
    case Normal(st2) => hide Goes, Linked; GoesThen(p, text, bp, sp, st, s, st1, t, st2, u);
    case Returned(st2) => hide Goes, Returns; GoesReturns(p, text, bp, sp, st, s, saved, ret, st1, t, st2, u);
  }

  lemma {:induction false} IfRuns(p: Program, text: Memory, g: Scope, fuel: nat, bp: int, sp: int, e: Expr, c: Stmt,
                                  st: State, s: M.Machine,
                                  saved: Word, ret: Word)
    returns (t: M.Machine)
    requires Ready(p, text, bp, sp, st, s, StmtCode(g, If(e, c))) && Linked(s.mem, st.mem.own, bp, sp, saved, ret)
    requires !Exec(p, g, fuel, bp, sp, If(e, c), st).Undefined?
    ensures Proceeds(p, text, bp, sp, st, s, StmtCode(g, If(e, c)), saved, ret, Exec(p, g, fuel, bp, sp, If(e, c), st),
                     t)
    decreases fuel, If(e, c), 0
  {
    hide Eval, Exec, ExprCode, StmtCode, Sim, CodeAt, Goes, Linked, Loaded, Returns, InSpace;
    var ce, cc := ExprCode(g, e), StmtCode(g, c);
    var st1 := IfParts(p, g, fuel, bp, sp, e, c, st);
    var skip := st1.ax == 0;
    LoadedSpace(p, text);
    CodeAddress(text, s.pc, ShortCode(M.JZ, ce, cc));
    CodeAtJump(text, s.pc, ce, M.JZ, |cc| + 1, cc);
    var u := EvalRuns(p, text, g, fuel, bp, sp, e, st, s);
    GoesSim(p, text, bp, sp, st, s, st1, u);
    JumpStep(p, text, bp, sp, st1, u, M.JZ, |cc| + 1);
    t := u.(pc := if skip then u.pc + 8 + 4 * |cc| else u.pc + 8);
    GoesThen(p, text, bp, sp, st, s, st1, u, st1, t);
    GoesLinked(p, text, bp, sp, st, s, st1, t, saved, ret);
    if !skip {
      GoesSim(p, text, bp, sp, st, s, st1, t);
      var w := ExecRuns(p, text, g, fuel, bp, sp, c, st1, t, saved, ret);
      ThenProceeds(p, text, bp, sp, st, s, st1, t, cc, saved, ret, Exec(p, g, fuel, bp, sp, c, st1), w);
      t := w;
    }
  }

  lemma IfParts(p: Program, g: Scope, fuel: nat, bp: int, sp: int, e: Expr, c: Stmt, st: State) returns (st1: State)
    requires !Exec(p, g, fuel, bp, sp, If(e, c), st).Undefined?
    ensures Eval(p, g, fuel, bp, sp, e, st) == Done(st1)
    ensures Exec(p, g, fuel, bp, sp, If(e, c), st) == if st1.ax == 0 then Normal(st1) else Exec(p, g, fuel, bp, sp, c, st1)
    ensures StmtCode(g, If(e, c)) == ShortCode(M.JZ, ExprCode(g, e), StmtCode(g, c))
  {
    hide Eval, ExprCode;
    st1 := Eval(p, g, fuel, bp, sp, e, st).st;
  }

  lemma GoesLinked(p: Program, text: Memory, bp: int, sp: int, st: State, s: M.Machine, st1: State, t: M.Machine,
                   saved: Word, ret: Word)
    requires Goes(p, text, bp, sp, st, s, st1, t) && Linked(s.mem, st.mem.own, bp, sp, saved, ret)
    ensures Linked(t.mem, st1.mem.own, bp, sp, saved, ret) && st1.mem.own == st.mem.own
  {
    LinkKept(s.mem, t.mem, st.mem.own, p.limit, bp, sp, saved, ret);
  }

  lemma {:induction false} IfElseRuns(p: Program, text: Memory, g: Scope, fuel: nat, bp: int, sp: int, e: Expr,
                                      c1: Stmt, c2: Stmt, st: State, s: M.Machine,
                                      saved: Word, ret: Word)
    returns (t: M.Machine)
    requires Ready(p, text, bp, sp, st, s, StmtCode(g, IfElse(e, c1, c2)))
    requires Linked(s.mem, st.mem.own, bp, sp, saved, ret)
    requires !Exec(p, g, fuel, bp, sp, IfElse(e, c1, c2), st).Undefined?
    ensures Proceeds(p, text, bp, sp, st, s, StmtCode(g, IfElse(e, c1, c2)), saved, ret,
                     Exec(p, g, fuel, bp, sp, IfElse(e, c1, c2), st), t)
    decreases fuel, IfElse(e, c1, c2), 0
  {
    var ce, ca, cb := ExprCode(g, e), StmtCode(g, c1), StmtCode(g, c2);
    var st1 := Eval(p, g, fuel, bp, sp, e, st).st;
    var taken := if st1.ax != 0 then c1 else c2;
    var r := Exec(p, g, fuel, bp, sp, taken, st1);
    assert StmtCode(g, IfElse(e, c1, c2)) == BranchCode(ce, ca, cb);
    assert Exec(p, g, fuel, bp, sp, IfElse(e, c1, c2), st) == r;
    assert InSpace(text);
    hide Eval, Exec, ExprCode, StmtCode, Sim, CodeAt, Goes, Linked, Loaded, Returns;
    CodeAtCondition(text, s.pc, ce, ca, cb);
    var u := EvalRuns(p, text, g, fuel, bp, sp, e, st, s);
    var w := EnterArm(p, text, bp, sp, st, s, ce, ca, cb, st1, u);
    GoesSim(p, text, bp, sp, st, s, st1, w);
    GoesLinked(p, text, bp, sp, st, s, st1, w, saved, ret);
    var x := ExecRuns(p, text, g, fuel, bp, sp, taken, st1, w, saved, ret);
    ThenProceeds(p, text, bp, sp, st, s, st1, w, StmtCode(g, taken), saved, ret, r, x);
    t := x;
    if r.Normal? {
      t := LeaveArm(p, text, bp, sp, st, s, ce, ca, cb, st1.ax != 0, r.st, x);
    }
  }

  // One turn of the loop, and the rest of it with less fuel.
  lemma {:induction false} WhileRuns(p: Program, text: Memory, g: Scope, fuel: nat, bp: int, sp: int, e: Expr, c: Stmt,
                                     st: State, s: M.Machine,
                                     saved: Word, ret: Word)
    returns (t: M.Machine)
    requires Ready(p, text, bp, sp, st, s, StmtCode(g, While(e, c))) && Linked(s.mem, st.mem.own, bp, sp, saved, ret)
    requires !Exec(p, g, fuel, bp, sp, While(e, c), st).Undefined?
    ensures Proceeds(p, text, bp, sp, st, s, StmtCode(g, While(e, c)), saved, ret,
                     Exec(p, g, fuel, bp, sp, While(e, c), st), t)
    decreases fuel, While(e, c), 0
  {
    hide Eval, Exec, ExprCode, StmtCode, Sim, CodeAt, Goes, Linked, Loaded, Returns, InSpace;
    var ce, cc := ExprCode(g, e), StmtCode(g, c);
    var whole := LoopCode(ce, cc);
    var st1, r := WhileParts(p, g, fuel, bp, sp, e, c, st);
    LoadedSpace(p, text);
    CodeAtLoop(text, s.pc, ce, cc);
    var u := EvalRuns(p, text, g, fuel - 1, bp, sp, e, st, s);
    t := LoopTest(p, text, bp, sp, st, s, ce, cc, st1, u);
    GoesLinked(p, text, bp, sp, st, s, st1, t, saved, ret);
    if st1.ax != 0 {
      GoesSim(p, text, bp, sp, st, s, st1, t);
      var w := ExecRuns(p, text, g, fuel - 1, bp, sp, c, st1, t, saved, ret);
      ThenProceeds(p, text, bp, sp, st, s, st1, t, cc, saved, ret, r, w);
      t := w;
      if r.Normal? {
        var x := LoopBack(p, text, bp, sp, st, s, ce, cc, r.st, w);
        GoesSim(p, text, bp, sp, st, s, r.st, x);
        t := WhileRuns(p, text, g, fuel - 1, bp, sp, e, c, r.st, x, saved, ret);
        ThenProceeds(p, text, bp, sp, st, s, r.st, x, whole, saved, ret,
                     Exec(p, g, fuel - 1, bp, sp, While(e, c), r.st), t);
      }
    }
  }

  // The first turn of a loop that ends, and what is left of it.
  lemma WhileParts(p: Program, g: Scope, fuel: nat, bp: int, sp: int, e: Expr, c: Stmt, st: State)
    returns (st1: State, r: Effect)
    requires !Exec(p, g, fuel, bp, sp, While(e, c), st).Undefined?
    ensures fuel > 0 && Eval(p, g, fuel - 1, bp, sp, e, st) == Done(st1)
    ensures r == (if st1.ax == 0 then Normal(st1) else Exec(p, g, fuel - 1, bp, sp, c, st1)) && !r.Undefined?
    ensures StmtCode(g, While(e, c)) == LoopCode(ExprCode(g, e), StmtCode(g, c))
    ensures st1.ax != 0 && r.Normal? ==>
      Exec(p, g, fuel, bp, sp, While(e, c), st) == Exec(p, g, fuel - 1, bp, sp, While(e, c), r.st)
    ensures st1.ax == 0 || r.Returned? ==> Exec(p, g, fuel, bp, sp, While(e, c), st) == r
  {
    hide Eval, ExprCode;
    st1 := Eval(p, g, fuel - 1, bp, sp, e, st).st;
    r := if st1.ax == 0 then Normal(st1) else Exec(p, g, fuel - 1, bp, sp, c, st1);
  }

  lemma LoadedSpace(p: Program, text: Memory)
    requires Loaded(p, text)
    ensures InSpace(text) && 0 <= p.limit
  {
    hide FunctionAt, InSpace;
  }

  // After the condition of a loop: into the body, or past the loop.
  lemma LoopTest(p: Program, text: Memory, bp: int, sp: int, st: State, s: M.Machine, c: Code, body: Code, st1: State,
                 u: M.Machine)
    returns (t: M.Machine)
    requires InSpace(text) && CodeAt(text, s.pc, LoopCode(c, body))
    requires Goes(p, text, bp, sp, st, s, st1, u) && u.pc == s.pc + 4 * |c|
    ensures Goes(p, text, bp, sp, st, s, st1, t)
    ensures t.pc == s.pc + 4 * (if st1.ax == 0 then |LoopCode(c, body)| else |c| + 2)
  {
    hide Sim, CodeAt, Goes;
    CodeAtLoop(text, s.pc, c, body);
    GoesSim(p, text, bp, sp, st, s, st1, u);
    JumpStep(p, text, bp, sp, st1, u, M.JZ, |body| + 3);
    t := u.(pc := s.pc + 4 * (if st1.ax == 0 then |LoopCode(c, body)| else |c| + 2));
    GoesThen(p, text, bp, sp, st, s, st1, u, st1, t);
  }

  // After the body: back to the condition.
  lemma LoopBack(p: Program, text: Memory, bp: int, sp: int, st: State, s: M.Machine, c: Code, body: Code, st2: State,
                 w: M.Machine)
    returns (x: M.Machine)
    requires InSpace(text) && CodeAt(text, s.pc, LoopCode(c, body))
    requires Goes(p, text, bp, sp, st, s, st2, w) && w.pc == s.pc + 4 * (|c| + 2 + |body|)
    ensures Goes(p, text, bp, sp, st, s, st2, x) && x == w.(pc := s.pc)
  {
    hide Sim, CodeAt, Goes;
    CodeAtLoop(text, s.pc, c, body);
    GoesSim(p, text, bp, sp, st, s, st2, w);
    JumpStep(p, text, bp, sp, st2, w, M.JMP, -(|c| + 2 + |body| + 1));
    x := w.(pc := s.pc);
    GoesThen(p, text, bp, sp, st, s, st2, w, st2, x);
  }

  // Where the parts of a loop stand.
  lemma CodeAtLoop(text: Memory, pos: int, c: Code, body: Code)
    requires InSpace(text) && CodeAt(text, pos, LoopCode(c, body))
    ensures CodeAt(text, pos, c) && CodeAt(text, pos + 4 * |c|, [Op(M.JZ), Rel(|body| + 3)])
    ensures CodeAt(text, pos + 4 * |c| + 8, body)
    ensures CodeAt(text, pos + 4 * |c| + 8 + 4 * |body|, [Op(M.JMP), Rel(-(|c| + 2 + |body| + 1))])
    ensures |LoopCode(c, body)| == |c| + |body| + 4 && 0 <= pos && pos + 4 * (|c| + |body| + 4) < WORD_LIMIT
  {
    CodeAddress(text, pos, LoopCode(c, body));
    CodeAtSplit(text, pos, c + [Op(M.JZ), Rel(|body| + 3)] + body, [Op(M.JMP), Rel(-(|c| + 2 + |body| + 1))]);
    CodeAtJump(text, pos, c, M.JZ, |body| + 3, body);
  }
}
