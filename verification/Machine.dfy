/**
 * The stack machine of the C interpreter: one step of the instruction set, runs of
 * steps, and the loop that executes a program in place.
 *
 * Code, stack and data live in one byte-addressed memory, because the program returns
 * through two instructions that the loader leaves on the stack.
 */
module Machine {
  import opened Words

  const LEA: Word := 0
  const IMM: Word := 1
  const JMP: Word := 2
  const CALL: Word := 3
  const JZ: Word := 4
  const JNZ: Word := 5
  const ENT: Word := 6
  const ADJ: Word := 7
  const LEV: Word := 8
  const LI: Word := 9
  const LC: Word := 10
  const SI: Word := 11
  const SC: Word := 12
  const PUSH: Word := 13
  const OR: Word := 14
  const XOR: Word := 15
  const AND: Word := 16
  const EQ: Word := 17
  const NE: Word := 18
  const LT: Word := 19
  const GT: Word := 20
  const LE: Word := 21
  const GE: Word := 22
  const SHL: Word := 23
  const SHR: Word := 24
  const ADD: Word := 25
  const SUB: Word := 26
  const MUL: Word := 27
  const DIV: Word := 28
  const MOD: Word := 29
  const EXIT: Word := 37
  const FREE: Word := 38

  predicate IsAlu(op: Word) { OR <= op <= MOD }

  function Truth(b: bool): Word { if b then 1 else 0 }

  // The two-operand instructions: `a` is popped from the stack, `b` is the accumulator.
  // None where C leaves the result undefined (and the processor traps or masks).
  function Alu(op: Word, a: Word, b: Word): Option<Word> {
    if op == OR then Some(BitwiseWord(BitOr, a, b))
    else if op == XOR then Some(BitwiseWord(BitXor, a, b))
    else if op == AND then Some(BitwiseWord(BitAnd, a, b))
    else if op == EQ then Some(Truth(a == b))
    else if op == NE then Some(Truth(a != b))
    else if op == LT then Some(Truth(Signed(a) < Signed(b)))
    else if op == GT then Some(Truth(Signed(a) > Signed(b)))
    else if op == LE then Some(Truth(Signed(a) <= Signed(b)))
    else if op == GE then Some(Truth(Signed(a) >= Signed(b)))
    else if op == SHL then if b < 32 then Some(ToWord(a * Pow2(b))) else None
    else if op == SHR then if b < 32 then Some(ToWord(Signed(a) / Pow2(b))) else None
    else if op == ADD then Some(ToWord(a + b))
    else if op == SUB then Some(ToWord(a - b))
    else if op == MUL then Some(ToWord(a * b))
    else if op == DIV || op == MOD then
      if b == 0 || (Signed(a) == -0x8000_0000 && Signed(b) == -1) then None
      else if op == DIV then Some(ToWord(TruncDiv(Signed(a), Signed(b))))
      else Some(ToWord(TruncMod(Signed(a), Signed(b))))
    else None
  }

  datatype Machine = Machine(pc: int, sp: int, bp: int, ax: Word, mem: Memory)

  datatype Outcome =
    | Next(m: Machine)
    | Exited(code: Word)
    | Fault            // unmapped access, undefined arithmetic, or a library call outside the model

  predicate HasOperand(op: Word) {
    op == LEA || op == IMM || op == JMP || op == CALL || op == JZ || op == JNZ || op == ENT || op == ADJ
  }

  // Store a word below the stack pointer.
  function PushWord(s: Machine, v: Word): Machine {
    s.(sp := s.sp - 4, mem := StoreWord(s.mem, s.sp - 4, v))
  }

  // One turn of the interpreter loop.
  function Step(s: Machine): Outcome {
    if !HasWord(s.mem, s.pc) then Fault else
    var op := LoadWord(s.mem, s.pc);
    if HasOperand(op) then
      if !HasWord(s.mem, s.pc + 4) then Fault
      else StepOperand(s, op, LoadWord(s.mem, s.pc + 4))
    else
      StepPlain(s.(pc := s.pc + 4), op)
  }

  // Instructions followed by an operand word `v`; `s.pc` is still at the opcode.
  function StepOperand(s: Machine, op: Word, v: Word): Outcome {
    if op == IMM then Next(s.(pc := s.pc + 8, ax := v))
    else if op == LEA then Next(s.(pc := s.pc + 8, ax := ToWord(s.bp + 4 * Signed(v))))
    else if op == JMP then Next(s.(pc := v))
    else if op == JZ then Next(s.(pc := if s.ax != 0 then s.pc + 8 else v))
    else if op == JNZ then Next(s.(pc := if s.ax != 0 then v else s.pc + 8))
    else if op == ADJ then Next(s.(pc := s.pc + 8, sp := s.sp + 4 * Signed(v)))
    else if !HasWord(s.mem, s.sp - 4) then Fault
    else if op == CALL then Next(PushWord(s, ToWord(s.pc + 8)).(pc := v))
    else if op == ENT then
      var t := PushWord(s, ToWord(s.bp));
      Next(t.(pc := s.pc + 8, bp := t.sp, sp := t.sp - 4 * Signed(v)))
    else Fault
  }

  // Instructions without an operand; `s.pc` is already past the opcode.
  function StepPlain(s: Machine, op: Word): Outcome {
    if op == LI then
      if HasWord(s.mem, s.ax) then Next(s.(ax := LoadWord(s.mem, s.ax))) else Fault
    else if op == LC then
      if s.ax in s.mem then Next(s.(ax := SignExtend(s.mem[s.ax]))) else Fault
    else if op == LEV then
      if HasWord(s.mem, s.bp) && HasWord(s.mem, s.bp + 4)
      then Next(s.(sp := s.bp + 8, bp := LoadWord(s.mem, s.bp), pc := LoadWord(s.mem, s.bp + 4)))
      else Fault
    else if op == PUSH then
      if HasWord(s.mem, s.sp - 4) then Next(PushWord(s, s.ax)) else Fault
    else if op > FREE then Exited(0xFFFF_FFFF)   // unknown instruction
    else if !HasWord(s.mem, s.sp) then Fault
    else
      var top := LoadWord(s.mem, s.sp);
      if op == SI then
        if HasWord(s.mem, top) then Next(s.(sp := s.sp + 4, mem := StoreWord(s.mem, top, s.ax))) else Fault
      else if op == SC then
        if top in s.mem
        then Next(s.(sp := s.sp + 4, ax := SignExtend(s.ax % 256), mem := s.mem[top := s.ax % 256]))
        else Fault
      else if op == EXIT then Exited(top)
      else match Alu(op, top, s.ax)
        case None => Fault
        case Some(v) => Next(s.(sp := s.sp + 4, ax := v))
  }

  // The outcome after at most `n` steps; a machine that stopped stays stopped.
  function Run(n: nat, s: Machine): Outcome {
    if n == 0 then Next(s) else
    match Step(s)
    case Next(t) => Run(n - 1, t)
    case stopped => stopped
  }

  ghost predicate Reaches(s: Machine, t: Machine) {
    exists n: nat :: Run(n, s) == Next(t)
  }

  ghost predicate ExitsWith(s: Machine, v: Word) {
    exists n: nat :: Run(n, s) == Exited(v)
  }

  lemma {:induction false} RunAppend(n: nat, k: nat, s: Machine, t: Machine)
    requires Run(n, s) == Next(t)
    ensures Run(n + k, s) == Run(k, t)
  {
    hide Step;
    if n != 0 {
      RunAppend(n - 1, k, Step(s).m, t);
    }
  }

  lemma ReachesTransitive(s: Machine, t: Machine, u: Machine)
    requires Reaches(s, t) && Reaches(t, u)
    ensures Reaches(s, u)
  {
    var n: nat :| Run(n, s) == Next(t);
    var k: nat :| Run(k, t) == Next(u);
    RunAppend(n, k, s, t);
    assert Run(n + k, s) == Next(u);
  }

  lemma ReachesStep(s: Machine, t: Machine)
    requires Step(s) == Next(t)
    ensures Reaches(s, t)
  {
    assert Run(1, s) == Run(0, t);
  }

  lemma ReachesSelf(s: Machine)
    ensures Reaches(s, s)
  {
    assert Run(0, s) == Next(s);
  }

  lemma ReachesThenExits(s: Machine, t: Machine, v: Word)
    requires Reaches(s, t) && ExitsWith(t, v)
    ensures ExitsWith(s, v)
  {
    var n: nat :| Run(n, s) == Next(t);
    var k: nat :| Run(k, t) == Exited(v);
    RunAppend(n, k, s, t);
    assert Run(n + k, s) == Exited(v);
  }

  // A machine has one exit value: however many steps the runs take, they agree.
  lemma ExitIsUnique(s: Machine, v: Word, w: Word)
    requires ExitsWith(s, v) && ExitsWith(s, w)
    ensures v == w
  {
    var n: nat :| Run(n, s) == Exited(v);
    var k: nat :| Run(k, s) == Exited(w);
    if n <= k {
      StoppedStays(n, k, s);
    } else {
      StoppedStays(k, n, s);
    }
  }

  lemma {:induction false} StoppedStays(n: nat, k: nat, s: Machine)
    requires !Run(n, s).Next? && n <= k
    ensures Run(k, s) == Run(n, s)
  {
    hide Step;
    if n != 0 && Step(s).Next? {
      StoppedStays(n - 1, k - 1, Step(s).m);
    }
  }
}
