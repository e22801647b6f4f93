/**
 * Running a function: until it calls or returns, the machine stays at the instructions of
 * the function.
 */
module ControlFlow {
  import opened Words
  import opened Codegen
  import opened CodeShape
  import opened Simulation
  import opened Printer
  import opened Jumps
  import opened Correctness
  import M = Machine

  // The operand of a jump that leads to an instruction of the same block.
  predicate LeadsWithin(code: Code, i: nat)
    requires i < |code| && code[i].Rel?
  {
    var target := i + code[i].k;
    0 <= target < |code| && code[target].Op?
  }

  // Every jump leads to an instruction of the block, and the last instruction is LEV.
  predicate Sealed(code: Code) {
    && Decodes(code) && |code| > 0 && code[|code| - 1] == Op(M.LEV)
    && (forall i :: 0 <= i < |code| && code[i].Rel? ==> LeadsWithin(code, i))
    && (forall i :: 0 <= i < |code| && IsJump(code[i]) ==> i + 1 < |code| && code[i + 1].Rel?)
  }

  lemma FunctionIsClosed(f: Routine)
    requires GoodSymbols(f.scope.symbols) && WellFormedStmts(f.scope, f.body)
    ensures Sealed(FunctionCode(f.scope, f.locals, f.body))
  {
    hide StmtsCode, GoodSymbols, WellFormedStmts, Decodes;
    var body := StmtsCode(f.scope, f.body);
    var code := FunctionCode(f.scope, f.locals, f.body);
    FunctionClosed(f.scope, f.locals, f.body);
    StmtsClosed(f.scope, f.body);
    forall i | 0 <= i < |code| && code[i].Rel?
      ensures LeadsWithin(code, i)
    {
      assert GoodItem(code, i);
      assert code[i] == body[i - 2] && GoodItem(body, i - 2);
    }
    forall i | 0 <= i < |code| && IsJump(code[i])
      ensures i + 1 < |code| && code[i + 1].Rel?
    {
      assert GoodItem(code, i);
    }
  }

  // The word at an index of a loaded function.
  lemma WordAt(text: Memory, entry: int, code: Code, i: nat, m: Memory)
    requires CodeAt(text, entry, code) && Agree(m, text) && i < |code|
    ensures HasWord(m, entry + 4 * i) && LoadWord(m, entry + 4 * i) == WordOf(entry + 4 * i, code[i])
  {
    assert Holds(text, entry + 4 * i, WordOf(entry + 4 * i, code[i]));
    HoldsLoads(m, entry + 4 * i, WordOf(entry + 4 * i, code[i]));
  }

  // The instruction with index `i` of a function is next.
  ghost predicate AtInstruction(entry: int, code: Code, i: int, s: M.Machine) {
    0 <= i < |code| && code[i].Op? && s.pc == entry + 4 * i
  }

  // What follows an instruction that is not the last one.
  lemma Follows(code: Code, i: nat)
    requires Sealed(code) && i < |code| && code[i].Op? && code[i] != Op(M.LEV)
    ensures var next := if M.HasOperand(code[i].w) then i + 2 else i + 1; next < |code| && code[next].Op?
    ensures M.HasOperand(code[i].w) && code[i].w in {M.JMP, M.JZ, M.JNZ} ==>
      code[i + 1].Rel? && LeadsWithin(code, i + 1)
  {
    hide LeadsWithin;
    if M.HasOperand(code[i].w) {
      assert !code[i + 1].Op? && code[i + 1 + 1].Op?;
      assert code[i].w in {M.JMP, M.JZ, M.JNZ} ==> IsJump(code[i]);
    }
  }

  // A step from an instruction of a loaded function, other than a call and the return, ends
  // at an instruction of the same function.
  lemma StepStays(text: Memory, entry: int, f: Routine, i: nat, s: M.Machine, t: M.Machine) returns (j: nat)
    requires GoodSymbols(f.scope.symbols) && WellFormedStmts(f.scope, f.body)
    requires FunctionAt(text, entry, f) && InSpace(text) && Agree(s.mem, text) && M.Step(s) == M.Next(t)
    requires AtInstruction(entry, FunctionCode(f.scope, f.locals, f.body), i, s)
    requires FunctionCode(f.scope, f.locals, f.body)[i] !in {Op(M.CALL), Op(M.LEV)}
    ensures AtInstruction(entry, FunctionCode(f.scope, f.locals, f.body), j, t)
  {
    hide FunctionCode, GoodSymbols, WellFormedStmts, Agree, InSpace, Sealed, LeadsWithin, WordOf, CodeAt, M.Step,
         M.HasOperand;
    var code := FunctionCode(f.scope, f.locals, f.body);
    FunctionIsClosed(f);
    Follows(code, i);
    CodeAddress(text, entry, code);
    WordAt(text, entry, code, i, s.mem);
    OpcodeIs(s.pc, code[i]);
    var op := code[i].w;
    StepIs(s, op, t);
    if M.HasOperand(op) {
      WordAt(text, entry, code, i + 1, s.mem);
      assert entry + 4 * (i + 1) == s.pc + 4;
      j := i + 2;
      if t.pc != s.pc + 8 {
        JumpLands(entry, code, i + 1);
        j := i + 1 + code[i + 1].k;
      }
    } else {
      j := i + 1;
    }
  }

  lemma OpcodeIs(address: int, item: Item)
    requires item.Op?
    ensures WordOf(address, item) == item.w
  {
  }

  // Where a step goes.
  lemma StepIs(s: M.Machine, op: Word, t: M.Machine)
    requires M.Step(s) == M.Next(t) && HasWord(s.mem, s.pc) && op == LoadWord(s.mem, s.pc) && op !in {M.CALL, M.LEV}
    ensures !M.HasOperand(op) ==> t.pc == s.pc + 4
    ensures M.HasOperand(op) ==> HasWord(s.mem, s.pc + 4)
    ensures M.HasOperand(op) ==> t.pc == s.pc + 8 || (op in {M.JMP, M.JZ, M.JNZ} && t.pc == LoadWord(s.mem, s.pc + 4))
  {
    hide M.StepOperand, M.StepPlain, HasWord, LoadWord;
    if M.HasOperand(op) {
      OperandStep(s, op, LoadWord(s.mem, s.pc + 4), t);
    } else {
      PlainStep(s, op, t);
    }
  }

  lemma JumpLands(entry: int, code: Code, i: nat)
    requires i < |code| && code[i].Rel? && LeadsWithin(code, i) && 0 <= entry && entry + 4 * |code| < WORD_LIMIT
    ensures WordOf(entry + 4 * i, code[i]) == entry + 4 * (i + code[i].k)
    ensures 0 <= i + code[i].k < |code| && code[i + code[i].k].Op?
  {
    WordItself(entry + 4 * (i + code[i].k));
  }

  lemma OperandStep(s: M.Machine, op: Word, v: Word, t: M.Machine)
    requires M.StepOperand(s, op, v) == M.Next(t) && op != M.CALL
    ensures t.pc == s.pc + 8 || (op in {M.JMP, M.JZ, M.JNZ} && t.pc == v)
  {
    hide StoreWord, ToWord, Signed;
  }

  lemma PlainStep(s: M.Machine, op: Word, t: M.Machine)
    requires M.StepPlain(s.(pc := s.pc + 4), op) == M.Next(t) && op != M.LEV
    ensures t.pc == s.pc + 4
  {
    hide StoreWord, LoadWord, M.Alu, HasWord;
  }
}
