/**
 * The compiled code means what the tree means: whenever the evaluator has a result, the
 * machine runs through the placed code of the tree, ends just after it with that result
 * in the accumulator, with the stack and frame pointers where they were, and with only
 * the memory changed that the evaluator changed (and the free stack below `sp`).
 */
module Preservation {
  import opened Words
  import opened Syntax
  import opened Codegen
  import opened Semantics
  import opened Simulation
  import opened Operators
  import M = Machine

  // ----- arithmetic of the code generator's idioms -----

  lemma WrapTwice(x: int, y: int)
    ensures ToWord(x + ToWord(y)) == ToWord(x + y)
    ensures ToWord(x - ToWord(y)) == ToWord(x - y)
  {
    var q := y / WORD_LIMIT;
    assert y == q * WORD_LIMIT + ToWord(y);
    WrapMultiple(x + ToWord(y), q);
    WrapMultiple(x - ToWord(y), -q);
  }

  lemma WrapMultiple(x: int, k: int)
    ensures (x + k * WORD_LIMIT) % WORD_LIMIT == x % WORD_LIMIT
  {
    var q := x / WORD_LIMIT;
    assert x + k * WORD_LIMIT == (q + k) * WORD_LIMIT + x % WORD_LIMIT;
  }

  // Multiplying by the word -1 negates.
  lemma TimesMinusOne(x: Word)
    ensures M.Alu(M.MUL, 0xFFFF_FFFF, x) == Some(ToWord(-(x as int)))
  {
    var y: int := x;
    assert 0xFFFF_FFFF * y == -y + y * WORD_LIMIT;
    WrapMultiple(-y, y);
  }

  // Exclusive or with the word -1 complements.
  lemma XorMinusOne(x: Word)
    ensures M.Alu(M.XOR, x, 0xFFFF_FFFF) == Some(0xFFFF_FFFF - x)
  {
    Pow2Of32();
    XorWithOnes(32, x);
  }

  // ----- splitting the code of a tree -----

  lemma CodeAtInfix(text: Memory, pos: int, a: Code, b: Code, tail: Code)
    requires CodeAt(text, pos, a + [Op(M.PUSH)] + b + tail)
    ensures CodeAt(text, pos, a + [Op(M.PUSH)] + b)
    ensures CodeAt(text, pos, a) && CodeAt(text, pos + 4 * |a|, [Op(M.PUSH)])
    ensures CodeAt(text, pos + 4 * |a| + 4, b) && CodeAt(text, pos + 4 * |a| + 4 + 4 * |b|, tail)
  {
    CodeAtSplit(text, pos, a + [Op(M.PUSH)] + b, tail);
    CodeAtSplit(text, pos, a + [Op(M.PUSH)], b);
    CodeAtSplit(text, pos, a, [Op(M.PUSH)]);
  }

  lemma CodeAtJump(text: Memory, pos: int, a: Code, op: Word, k: int, b: Code)
    requires CodeAt(text, pos, a + [Op(op), Rel(k)] + b)
    ensures CodeAt(text, pos, a) && CodeAt(text, pos + 4 * |a|, [Op(op), Rel(k)]) && CodeAt(text, pos + 4 * |a| + 8, b)
  {
    CodeAtSplit(text, pos, a + [Op(op), Rel(k)], b);
    CodeAtSplit(text, pos, a, [Op(op), Rel(k)]);
  }

  // An address and the load that follows it.
  lemma LvalueCode(g: Scope, e: Expr)
    requires IsLvalue(g, e)
    ensures ExprCode(g, e) == DropLast(ExprCode(g, e)) + [Op(LoadOp(TypeOf(g, e)))]
    ensures LastWord(ExprCode(g, e)) == LoadOp(TypeOf(g, e))
  {
  }

  lemma AddressOfLvalue(p: Program, g: Scope, fuel: nat, bp: int, sp: int, e: Expr, st: State)
    requires EvalAddress(p, g, fuel, bp, sp, e, st).Done?
    ensures IsLvalue(g, e)
  {
  }

  // ----- idioms -----

  // Push the accumulator, load a constant and combine.
  lemma ConstantStep(p: Program, text: Memory, bp: int, sp: int, st: State, s: M.Machine, k: Word, op: Word, v: Word)
    returns (t: M.Machine)
    requires Sim(p, text, bp, sp, st, s) && Room(p, sp, 1)
    requires CodeAt(text, s.pc, [Op(M.PUSH), Op(M.IMM), Arg(k), Op(op)])
    requires M.IsAlu(op) && M.Alu(op, st.ax, k) == Some(v)
    ensures Goes(p, text, bp, sp, st, s, st.(ax := v), t) && t.pc == s.pc + 16
  {
    hide M.Alu, M.IsAlu, Sim, CodeAt, Goes, Pushed;
    var code := [Op(M.PUSH), Op(M.IMM), Arg(k), Op(op)];
    assert code == [Op(M.PUSH)] + [Op(M.IMM), Arg(k)] + [Op(op)];
    CodeAtSplit(text, s.pc, [Op(M.PUSH)] + [Op(M.IMM), Arg(k)], [Op(op)]);
    CodeAtSplit(text, s.pc, [Op(M.PUSH)], [Op(M.IMM), Arg(k)]);
    GoesSelf(p, text, bp, sp, st, s);
    var u := GoesPush(p, text, bp, sp, st, s, st, s);
    PushedSim(p, text, bp, sp, st, s, st.ax, st, u);
    ImmStep(p, text, bp, sp - 4, st, u, k);
    var w := u.(pc := u.pc + 8, ax := k);
    PushedThen(p, text, bp, sp, st, s, st.ax, st, u, st.(ax := k), w);
    t := AluStep(p, text, bp, sp, st, s, st.ax, st.(ax := k), w, op, v);
  }

  lemma PushedSim(p: Program, text: Memory, bp: int, sp: int, st: State, s: M.Machine, v: Word, st1: State,
                  t: M.Machine)
    requires Pushed(p, text, bp, sp, st, s, v, st1, t)
    ensures Sim(p, text, bp, sp - 4, st1, t)
  {
  }

  lemma GoesSim(p: Program, text: Memory, bp: int, sp: int, st: State, s: M.Machine, st1: State, t: M.Machine)
    requires Goes(p, text, bp, sp, st, s, st1, t)
    ensures Sim(p, text, bp, sp, st, s) && Sim(p, text, bp, sp, st1, t)
  {
  }

  // The index scaled to bytes.
  lemma ScaleStep(p: Program, text: Memory, bp: int, sp: int, st: State, s: M.Machine, ty: int)
    returns (t: M.Machine)
    requires Sim(p, text, bp, sp, st, s) && CodeAt(text, s.pc, Scale(ty))
    requires ty > PTR_TYPE ==> Room(p, sp, 1)
    ensures Goes(p, text, bp, sp, st, s, st.(ax := ToWord(Scaled(ty, st.ax))), t) && t.pc == s.pc + 4 * |Scale(ty)|
  {
    if ty > PTR_TYPE {
      var v := ToWord(st.ax * 4);
      assert M.Alu(M.MUL, st.ax, 4) == Some(v);
      t := ConstantStep(p, text, bp, sp, st, s, 4, M.MUL, v);
    } else {
      t := s;
      assert st.(ax := ToWord(Scaled(ty, st.ax))) == st;
      GoesSelf(p, text, bp, sp, st, s);
    }
  }

  // Adding or subtracting a number that has wrapped to a word.
  lemma AddOrSubtract(op: Word, a: Word, x: int)
    requires op in {M.ADD, M.SUB}
    ensures M.IsAlu(op) && M.Alu(op, a, ToWord(x)) == Some(ToWord(if op == M.ADD then a + x else a - x))
  {
    hide ToWord;
    WrapTwice(a, x);
  }

  // The scaled right operand combined with the left one.
  lemma ScaledStep(p: Program, text: Memory, bp: int, sp: int, st: State, s: M.Machine, a: Word, st1: State,
                   t: M.Machine, ty: int, op: Word)
    returns (u: M.Machine)
    requires Pushed(p, text, bp, sp, st, s, a, st1, t) && Room(p, sp, Depth(ty))
    requires op in {M.ADD, M.SUB} && CodeAt(text, t.pc, Scale(ty) + [Op(op)])
    ensures var x := Scaled(ty, st1.ax);
      Goes(p, text, bp, sp, st, s, st1.(ax := ToWord(if op == M.ADD then a + x else a - x)), u)
    ensures u.pc == t.pc + 4 * |Scale(ty)| + 4
  {
    hide M.Alu, Sim, CodeAt, Goes, Pushed, Scaled, Scale, ToWord;
    var x := Scaled(ty, st1.ax);
    var v := ToWord(if op == M.ADD then a + x else a - x);
    AddOrSubtract(op, a, x);
    CodeAtSplit(text, t.pc, Scale(ty), [Op(op)]);
    PushedSim(p, text, bp, sp, st, s, a, st1, t);
    var w := ScaleStep(p, text, bp, sp - 4, st1, t, ty);
    PushedThen(p, text, bp, sp, st, s, a, st1, t, st1.(ax := ToWord(x)), w);
    u := AluStep(p, text, bp, sp, st, s, a, st1.(ax := ToWord(x)), w, op, v);
  }

  // What follows the operands of a binary operator.
  lemma BinaryStep(p: Program, text: Memory, bp: int, sp: int, st: State, s: M.Machine, a: Word, st1: State,
                   t: M.Machine,
                   op: BinOp, ta: int, tb: int, v: Word)
    returns (u: M.Machine)
    requires Pushed(p, text, bp, sp, st, s, a, st1, t) && CodeAt(text, t.pc, BinaryTail(op, ta, tb))
    requires op in {BAdd, BSub} ==> Room(p, sp, Depth(ta))
    requires BinaryValue(op, ta, tb, a, st1.ax) == Some(v)
    ensures Goes(p, text, bp, sp, st, s, st1.(ax := v), u) && u.pc == t.pc + 4 * |BinaryTail(op, ta, tb)|
  {
    hide Sim, CodeAt, Goes, Pushed, ToWord, Signed, TruncDiv, Scale, Scaled, PlainValue, M.Alu;
    if op == BSub && ta > PTR_TYPE && ta == tb {
      u := PointerDistance(p, text, bp, sp, st, s, a, st1, t, v);
    } else if op == BAdd || op == BSub {
      u := ScaledStep(p, text, bp, sp, st, s, a, st1, t, ta, Opcode(op));
    } else {
      AluComputes(op, a, st1.ax);
      u := AluStep(p, text, bp, sp, st, s, a, st1, t, Opcode(op), v);
    }
  }

  lemma PointerDistance(p: Program, text: Memory, bp: int, sp: int, st: State, s: M.Machine, a: Word, st1: State,
                        t: M.Machine, v: Word)
    returns (u: M.Machine)
    requires Pushed(p, text, bp, sp, st, s, a, st1, t)
    requires CodeAt(text, t.pc, [Op(M.SUB), Op(M.PUSH), Op(M.IMM), Arg(4), Op(M.DIV)])
    requires v == ToWord(TruncDiv(Signed(ToWord(a - st1.ax)), 4))
    ensures Goes(p, text, bp, sp, st, s, st1.(ax := v), u) && u.pc == t.pc + 20
  {
    var d := ToWord(a - st1.ax);
    var st2 := st1.(ax := d);
    assert M.Alu(M.SUB, a, st1.ax) == Some(d);
    assert M.Alu(M.DIV, d, 4) == Some(v);
    var tail := [Op(M.PUSH), Op(M.IMM), Arg(4), Op(M.DIV)];
    assert [Op(M.SUB), Op(M.PUSH), Op(M.IMM), Arg(4), Op(M.DIV)] == [Op(M.SUB)] + tail;
    assert Room(p, sp, 1) by { hide Sim, CodeAt; }
    hide M.Alu, Sim, CodeAt, Goes, Pushed, TruncDiv;
    CodeAtSplit(text, t.pc, [Op(M.SUB)], tail);
    var w := AluStep(p, text, bp, sp, st, s, a, st1, t, M.SUB, d);
    GoesSim(p, text, bp, sp, st, s, st2, w);
    u := ConstantStep(p, text, bp, sp, st2, w, 4, M.DIV, v);
    GoesThen(p, text, bp, sp, st, s, st2, w, st2.(ax := v), u);
    assert st2.(ax := v) == st1.(ax := v);
  }

  // Read the variable whose address is in the accumulator, and step the value.
  lemma ReadAndMove(p: Program, text: Memory, bp: int, sp: int, st: State, s: M.Machine, ty: int, up: bool, v: Word)
    returns (t: M.Machine)
    requires Sim(p, text, bp, sp, st, s) && Room(p, sp, 1)
    requires CodeAt(text, s.pc,
                    [Op(LoadOp(ty))] + [Op(M.PUSH), Op(M.IMM), Arg(StepSize(ty)), Op(if up then M.ADD else M.SUB)])
    requires LoadAt(LoadOp(ty), st.mem, st.ax) == Some(v)
    ensures Goes(p, text, bp, sp, st, s, st.(ax := Moved(v, ty, up)), t) && t.pc == s.pc + 20
  {
    var load, op := LoadOp(ty), if up then M.ADD else M.SUB;
    var k, w := StepSize(ty), Moved(v, ty, up);
    assert M.Alu(op, v, k) == Some(w);
    hide M.Alu, Sim, CodeAt, Goes, LoadAt, Moved, StepSize;
    CodeAtSplit(text, s.pc, [Op(load)], [Op(M.PUSH), Op(M.IMM), Arg(k), Op(op)]);
    LoadStep(p, text, bp, sp, st, s, load, v);
    var st1, u := st.(ax := v), s.(pc := s.pc + 4, ax := v);
    GoesSim(p, text, bp, sp, st, s, st1, u);
    t := ConstantStep(p, text, bp, sp, st1, u, k, op, w);
    GoesThen(p, text, bp, sp, st, s, st1, u, st1.(ax := w), t);
    assert st1.(ax := w) == st.(ax := w);
  }

  // Read the variable whose address is in the accumulator, step it, and write it back.
  lemma StepStep(p: Program, text: Memory, bp: int, sp: int, st: State, s: M.Machine, ty: int, up: bool, v: Word)
    returns (t: M.Machine)
    requires Sim(p, text, bp, sp, st, s) && Room(p, sp, 2)
    requires CodeAt(text, s.pc, StepCode(LoadOp(ty), ty, up))
    requires LoadAt(LoadOp(ty), st.mem, st.ax) == Some(v)
    requires StoreAt(StoreOp(ty), st.mem, st.ax, Moved(v, ty, up)).Done?
    ensures Goes(p, text, bp, sp, st, s, StoreAt(StoreOp(ty), st.mem, st.ax, Moved(v, ty, up)).st, t)
    ensures t.pc == s.pc + 28
  {
    hide Sim, CodeAt, Goes, Pushed, LoadAt, StoreAt, Moved, StepSize;
    var load, store, op := LoadOp(ty), StoreOp(ty), if up then M.ADD else M.SUB;
    var w := Moved(v, ty, up);
    var middle := [Op(load)] + [Op(M.PUSH), Op(M.IMM), Arg(StepSize(ty)), Op(op)];
    assert StepCode(load, ty, up) == [Op(M.PUSH)] + middle + [Op(store)];
    hide StepCode;
    CodeAtSplit(text, s.pc, [Op(M.PUSH)] + middle, [Op(store)]);
    CodeAtSplit(text, s.pc, [Op(M.PUSH)], middle);
    GoesSelf(p, text, bp, sp, st, s);
    var u := GoesPush(p, text, bp, sp, st, s, st, s);
    PushedSim(p, text, bp, sp, st, s, st.ax, st, u);
    var u1 := ReadAndMove(p, text, bp, sp - 4, st, u, ty, up, v);
    PushedThen(p, text, bp, sp, st, s, st.ax, st, u, st.(ax := w), u1);
    t := StoreStep(p, text, bp, sp, st, s, st.ax, st.(ax := w), u1, store);
  }
}
