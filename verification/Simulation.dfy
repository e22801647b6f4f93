/**
 * When a machine state represents a state of the evaluator, and what single instructions
 * do to the representation. The proofs about whole trees use only the lemmas here.
 */
module Simulation {
  import opened Words
  import opened Codegen
  import opened Semantics
  import M = Machine

  // ----- code and words in memory -----

  // The four bytes at `a` are those of `v`.
  predicate Holds(m: Memory, a: int, v: Word) {
    HasWord(m, a) && m[a] == v % 256 && m[a + 1] == v / 256 % 256 && m[a + 2] == v / 65536 % 256 && m[a + 3] == v / 16777216
  }

  lemma HoldsLoads(m: Memory, a: int, v: Word)
    requires Holds(m, a, v)
    ensures HasWord(m, a) && LoadWord(m, a) == v
  {
    WordFromBytes(v);
  }

  // A block stands at `pos`.
  predicate CodeAt(text: Memory, pos: int, code: Code) {
    forall i :: 0 <= i < |code| ==> Holds(text, pos + 4 * i, WordOf(pos + 4 * i, code[i]))
  }

  lemma CodeAtSplit(text: Memory, pos: int, a: Code, b: Code)
    requires CodeAt(text, pos, a + b)
    ensures CodeAt(text, pos, a) && CodeAt(text, pos + 4 * |a|, b)
  {
    hide Holds;
    forall i | 0 <= i < |a|
      ensures Holds(text, pos + 4 * i, WordOf(pos + 4 * i, a[i]))
    {
      assert (a + b)[i] == a[i];
    }
    forall i | 0 <= i < |b|
      ensures Holds(text, pos + 4 * |a| + 4 * i, WordOf(pos + 4 * |a| + 4 * i, b[i]))
    {
      assert (a + b)[|a| + i] == b[i];
      assert pos + 4 * (|a| + i) == pos + 4 * |a| + 4 * i;
    }
  }

  // The text area lies in the address space, with room for the address after its end.
  predicate InSpace(text: Memory) {
    forall a :: a in text ==> 0 <= a < WORD_LIMIT - 1
  }

  // Addresses of placed code, and the one just after it, are words.
  lemma CodeAddress(text: Memory, pos: int, code: Code)
    requires InSpace(text) && CodeAt(text, pos, code) && |code| > 0
    ensures 0 <= pos && pos + 4 * |code| < WORD_LIMIT
  {
    assert Holds(text, pos, WordOf(pos, code[0])) by { assert pos + 4 * 0 == pos; }
    var last := pos + 4 * (|code| - 1);
    assert Holds(text, last, WordOf(last, code[|code| - 1]));
    assert last + 3 in text;
  }

  // ----- the representation -----

  // What a machine with memory `keys` must not do: the program's own addresses, the code
  // and the stack below `sp` do not overlap.
  ghost predicate Safe(limit: int, text: Memory, sp: int, m: UserMemory, keys: set<int>) {
    && m.own <= keys && m.val.Keys <= m.own
    && (forall a :: a in m.own ==> a !in text && !(limit <= a < sp))
    && (forall a :: limit <= a < sp ==> a in keys && a !in text)
  }

  ghost predicate Sim(p: Program, text: Memory, bp: int, sp: int, st: State, s: M.Machine) {
    && s.sp == sp && s.bp == bp && s.ax == st.ax
    && Agree(s.mem, text) && Agree(s.mem, st.mem.val)
    && Safe(p.limit, text, sp, st.mem, s.mem.Keys)
  }

  // From `m` to `m'` only the program's own memory and the stack below `sp` changed.
  ghost predicate Frame(m: Memory, m': Memory, own: set<int>, limit: int, sp: int) {
    && m'.Keys == m.Keys
    && forall a :: a in m && a !in own && !(limit <= a < sp) ==> m'[a] == m[a]
  }

  // The machine runs from `s` to `t`, while the evaluator gets from `st` to `st'`.
  ghost predicate Goes(p: Program, text: Memory, bp: int, sp: int, st: State, s: M.Machine, st': State, t: M.Machine) {
    && Sim(p, text, bp, sp, st, s) && Sim(p, text, bp, sp, st', t)
    && M.Reaches(s, t)
    && st'.mem.own == st.mem.own
    && Frame(s.mem, t.mem, st.mem.own, p.limit, sp)
  }

  // The same, with the word `v` left on the stack.
  ghost predicate Pushed(p: Program, text: Memory, bp: int, sp: int, st: State, s: M.Machine, v: Word, st': State,
                         t: M.Machine) {
    && Sim(p, text, bp, sp, st, s) && Sim(p, text, bp, sp - 4, st', t)
    && M.Reaches(s, t)
    && st'.mem.own == st.mem.own
    && Frame(s.mem, t.mem, st.mem.own, p.limit, sp)
    && Holds(t.mem, sp - 4, v)
    && Room(p, sp, 1)
  }

  lemma GoesSelf(p: Program, text: Memory, bp: int, sp: int, st: State, s: M.Machine)
    requires Sim(p, text, bp, sp, st, s)
    ensures Goes(p, text, bp, sp, st, s, st, s)
  {
    M.ReachesSelf(s);
  }

  lemma GoesThen(p: Program, text: Memory, bp: int, sp: int, st: State, s: M.Machine, st1: State, t: M.Machine,
                 st2: State, u: M.Machine)
    requires Goes(p, text, bp, sp, st, s, st1, t) && Goes(p, text, bp, sp, st1, t, st2, u)
    ensures Goes(p, text, bp, sp, st, s, st2, u)
  {
    M.ReachesTransitive(s, t, u);
    hide M.Reaches, Sim;
  }

  lemma PushedThen(p: Program, text: Memory, bp: int, sp: int, st: State, s: M.Machine, v: Word,
                   st1: State, t: M.Machine, st2: State, u: M.Machine)
    requires Pushed(p, text, bp, sp, st, s, v, st1, t) && Goes(p, text, bp, sp - 4, st1, t, st2, u)
    ensures Pushed(p, text, bp, sp, st, s, v, st2, u)
  {
    hide M.Reaches;
    M.ReachesTransitive(s, t, u);
    forall a | sp - 4 <= a < sp
      ensures a in t.mem && u.mem[a] == t.mem[a]
    {
    }
  }

  // ----- single instructions -----

  lemma FetchOperand(text: Memory, s: M.Machine, op: Word, v: Word)
    requires Agree(s.mem, text) && Holds(text, s.pc, op) && Holds(text, s.pc + 4, v)
    requires M.HasOperand(op)
    ensures M.Step(s) == M.StepOperand(s, op, v)
  {
    HoldsLoads(s.mem, s.pc, op);
    HoldsLoads(s.mem, s.pc + 4, v);
    hide M.StepOperand, M.StepPlain, LoadWord, Holds;
  }

  lemma FetchPlain(text: Memory, s: M.Machine, op: Word)
    requires Agree(s.mem, text) && Holds(text, s.pc, op)
    requires !M.HasOperand(op)
    ensures M.Step(s) == M.StepPlain(s.(pc := s.pc + 4), op)
  {
    HoldsLoads(s.mem, s.pc, op);
    hide M.StepOperand, M.StepPlain, LoadWord, Holds;
  }

  lemma CodeAtPair(text: Memory, pos: int, op: Word, item: Item)
    requires CodeAt(text, pos, [Op(op), item])
    ensures Holds(text, pos, op) && Holds(text, pos + 4, WordOf(pos + 4, item))
  {
    var code := [Op(op), item];
    assert Holds(text, pos + 4 * 0, WordOf(pos + 4 * 0, code[0]));
    assert Holds(text, pos + 4 * 1, WordOf(pos + 4 * 1, code[1]));
  }

  lemma CodeAtOne(text: Memory, pos: int, op: Word)
    requires CodeAt(text, pos, [Op(op)])
    ensures Holds(text, pos, op)
  {
    var code := [Op(op)];
    assert Holds(text, pos + 4 * 0, WordOf(pos + 4 * 0, code[0]));
  }

  // An instruction that changes only the program counter and the accumulator.
  lemma RegisterStep(p: Program, text: Memory, bp: int, sp: int, st: State, s: M.Machine, pc: int, v: Word)
    requires Sim(p, text, bp, sp, st, s)
    requires M.Step(s) == M.Next(s.(pc := pc, ax := v))
    ensures Goes(p, text, bp, sp, st, s, st.(ax := v), s.(pc := pc, ax := v))
  {
    M.ReachesStep(s, s.(pc := pc, ax := v));
  }

  lemma ImmStep(p: Program, text: Memory, bp: int, sp: int, st: State, s: M.Machine, v: Word)
    requires Sim(p, text, bp, sp, st, s) && CodeAt(text, s.pc, [Op(M.IMM), Arg(v)])
    ensures Goes(p, text, bp, sp, st, s, st.(ax := v), s.(pc := s.pc + 8, ax := v))
  {
    CodeAtPair(text, s.pc, M.IMM, Arg(v));
    FetchOperand(text, s, M.IMM, v);
    RegisterStep(p, text, bp, sp, st, s, s.pc + 8, v);
  }

  lemma LeaStep(p: Program, text: Memory, bp: int, sp: int, st: State, s: M.Machine, k: Word)
    requires Sim(p, text, bp, sp, st, s) && CodeAt(text, s.pc, [Op(M.LEA), Arg(k)])
    ensures var v := ToWord(bp + 4 * Signed(k));
      Goes(p, text, bp, sp, st, s, st.(ax := v), s.(pc := s.pc + 8, ax := v))
  {
    CodeAtPair(text, s.pc, M.LEA, Arg(k));
    FetchOperand(text, s, M.LEA, k);
    RegisterStep(p, text, bp, sp, st, s, s.pc + 8, ToWord(bp + 4 * Signed(k)));
  }

  // A conditional or unconditional jump to `k` words after its operand.
  lemma JumpStep(p: Program, text: Memory, bp: int, sp: int, st: State, s: M.Machine, op: Word, k: int)
    requires Sim(p, text, bp, sp, st, s) && CodeAt(text, s.pc, [Op(op), Rel(k)])
    requires op in {M.JZ, M.JNZ, M.JMP} && 0 <= s.pc + 4 + 4 * k < WORD_LIMIT
    ensures var pc := if op == M.JMP || (op == M.JZ) == (st.ax == 0) then s.pc + 4 + 4 * k else s.pc + 8;
      Goes(p, text, bp, sp, st, s, st, s.(pc := pc))
  {
    var v := ToWord(s.pc + 4 + 4 * k);
    WordItself(s.pc + 4 + 4 * k);
    CodeAtPair(text, s.pc, op, Rel(k));
    FetchOperand(text, s, op, v);
    var pc := if op == M.JMP || (op == M.JZ) == (st.ax == 0) then s.pc + 4 + 4 * k else s.pc + 8;
    hide ToWord;
    RegisterStep(p, text, bp, sp, st, s, pc, s.ax);
  }

  lemma LoadStep(p: Program, text: Memory, bp: int, sp: int, st: State, s: M.Machine, op: Word, v: Word)
    requires Sim(p, text, bp, sp, st, s) && CodeAt(text, s.pc, [Op(op)])
    requires op in {M.LI, M.LC} && LoadAt(op, st.mem, st.ax) == Some(v)
    ensures Goes(p, text, bp, sp, st, s, st.(ax := v), s.(pc := s.pc + 4, ax := v))
  {
    CodeAtOne(text, s.pc, op);
    FetchPlain(text, s, op);
    if op == M.LI {
      LoadAgrees(s.mem, st.mem.val, st.ax);
    }
    RegisterStep(p, text, bp, sp, st, s, s.pc + 4, v);
  }

  // A stored word stands where it was stored, and nothing else moves.
  lemma Stored(m: Memory, a: int, v: Word)
    requires HasWord(m, a)
    ensures var m' := StoreWord(m, a, v);
      m'.Keys == m.Keys && Holds(m', a, v) && forall i :: i in m && !(a <= i < a + 4) ==> m'[i] == m[i]
  {
    assert StoreWord(m, a, v).Keys == m.Keys;
  }

  lemma StoreBelow(p: Program, text: Memory, bp: int, sp: int, st: State, s: M.Machine, v: Word)
    requires Sim(p, text, bp, sp, st, s) && Room(p, sp, 1)
    ensures HasWord(s.mem, sp - 4)
    ensures var t := M.PushWord(s, v);
      Sim(p, text, bp, sp - 4, st, t) && Frame(s.mem, t.mem, st.mem.own, p.limit, sp) && Holds(t.mem, sp - 4, v)
  {
    hide StoreWord, Holds;
    assert forall a :: sp - 4 <= a < sp ==> a in s.mem && a !in text && a !in st.mem.own;
    Stored(s.mem, sp - 4, v);
  }

  lemma SimParts(p: Program, text: Memory, bp: int, sp: int, st: State, s: M.Machine)
    requires Sim(p, text, bp, sp, st, s)
    ensures s.sp == sp && s.bp == bp && s.ax == st.ax && Agree(s.mem, text) && Agree(s.mem, st.mem.val)
    ensures Safe(p.limit, text, sp, st.mem, s.mem.Keys)
  {
  }

  lemma SimPc(p: Program, text: Memory, bp: int, sp: int, st: State, s: M.Machine, pc: int)
    requires Sim(p, text, bp, sp, st, s)
    ensures Sim(p, text, bp, sp, st, s.(pc := pc))
  {
  }

  // What the instructions that use the top of the stack do, given a mapped stack.
  lemma PlainPush(s: M.Machine)
    requires HasWord(s.mem, s.sp - 4)
    ensures M.StepPlain(s, M.PUSH) == M.Next(M.PushWord(s, s.ax))
  {
    hide StoreWord, HasWord;
  }

  lemma PlainAlu(s: M.Machine, op: Word, a: Word, v: Word)
    requires HasWord(s.mem, s.sp) && LoadWord(s.mem, s.sp) == a
    requires M.IsAlu(op) && M.Alu(op, a, s.ax) == Some(v)
    ensures M.StepPlain(s, op) == M.Next(s.(sp := s.sp + 4, ax := v))
  {
    hide M.Alu, LoadWord, HasWord;
  }

  lemma PlainStore(s: M.Machine, op: Word, a: Word)
    requires HasWord(s.mem, s.sp) && LoadWord(s.mem, s.sp) == a
    requires if op == M.SC then a in s.mem else op == M.SI && HasWord(s.mem, a)
    ensures M.StepPlain(s, op) == M.Next(
      if op == M.SC then s.(sp := s.sp + 4, ax := SignExtend(s.ax % 256), mem := s.mem[a := s.ax % 256])
      else s.(sp := s.sp + 4, mem := StoreWord(s.mem, a, s.ax)))
  {
    hide LoadWord, StoreWord, HasWord, SignExtend;
  }

  lemma PushStep(p: Program, text: Memory, bp: int, sp: int, st: State, s: M.Machine)
    requires Sim(p, text, bp, sp, st, s) && CodeAt(text, s.pc, [Op(M.PUSH)]) && Room(p, sp, 1)
    ensures Pushed(p, text, bp, sp, st, s, st.ax, st, M.PushWord(s, s.ax).(pc := s.pc + 4))
  {
    hide StoreWord, LoadWord, Holds, HasWord, CodeAt, Safe, Agree, M.StepPlain, M.Step, M.Reaches;
    CodeAtOne(text, s.pc, M.PUSH);
    FetchPlain(text, s, M.PUSH);
    StoreBelow(p, text, bp, sp, st, s, s.ax);
    PlainPush(s.(pc := s.pc + 4));
    M.ReachesStep(s, M.PushWord(s, s.ax).(pc := s.pc + 4));
  }

  // After a run, push its value.
  lemma GoesPush(p: Program, text: Memory, bp: int, sp: int, st: State, s: M.Machine, st1: State, t: M.Machine)
    returns (u: M.Machine)
    requires Goes(p, text, bp, sp, st, s, st1, t) && CodeAt(text, t.pc, [Op(M.PUSH)]) && Room(p, sp, 1)
    ensures Pushed(p, text, bp, sp, st, s, st1.ax, st1, u) && u.pc == t.pc + 4
  {
    u := M.PushWord(t, t.ax).(pc := t.pc + 4);
    PushStep(p, text, bp, sp, st1, t);
    M.ReachesTransitive(s, t, u);
    hide M.Reaches, Sim, Holds;
  }

  // The stack is popped: what held at `sp - 4` holds at `sp`.
  lemma PopSim(p: Program, text: Memory, bp: int, sp: int, st0: State, s: M.Machine, st: State, t: M.Machine)
    requires Sim(p, text, bp, sp, st0, s) && Sim(p, text, bp, sp - 4, st, t)
    requires st.mem.own == st0.mem.own && t.mem.Keys == s.mem.Keys
    ensures Sim(p, text, bp, sp, st, t.(sp := sp))
  {
  }

  // A two-operand instruction takes its left operand from the stack.
  lemma AluStep(p: Program, text: Memory, bp: int, sp: int, st: State, s: M.Machine, a: Word, st1: State, t: M.Machine,
                op: Word, v: Word)
    returns (u: M.Machine)
    requires Pushed(p, text, bp, sp, st, s, a, st1, t) && CodeAt(text, t.pc, [Op(op)])
    requires M.IsAlu(op) && M.Alu(op, a, st1.ax) == Some(v)
    ensures Goes(p, text, bp, sp, st, s, st1.(ax := v), u) && u.pc == t.pc + 4
  {
    hide M.Alu, LoadWord, Holds, Safe, Agree, HasWord, CodeAt, M.StepPlain, M.Step, M.Reaches;
    u := t.(pc := t.pc + 4, sp := sp, ax := v);
    CodeAtOne(text, t.pc, op);
    FetchPlain(text, t, op);
    HoldsLoads(t.mem, sp - 4, a);
    PopSim(p, text, bp, sp, st, s, st1, t);
    PlainAlu(t.(pc := t.pc + 4), op, a, v);
    M.ReachesStep(t, u);
    M.ReachesTransitive(s, t, u);
  }

  // A store takes its address from the stack.
  lemma StoreStep(p: Program, text: Memory, bp: int, sp: int, st: State, s: M.Machine, a: Word, st1: State,
                  t: M.Machine, op: Word)
    returns (u: M.Machine)
    requires Pushed(p, text, bp, sp, st, s, a, st1, t) && CodeAt(text, t.pc, [Op(op)])
    requires op in {M.SI, M.SC} && StoreAt(op, st1.mem, a, st1.ax).Done?
    ensures Goes(p, text, bp, sp, st, s, StoreAt(op, st1.mem, a, st1.ax).st, u) && u.pc == t.pc + 4
  {
    hide LoadWord, StoreWord, Holds, HasWord, Safe, Agree, CodeAt, StoreAt, M.StepPlain, M.Step, M.Reaches, SignExtend;
    CodeAtOne(text, t.pc, op);
    FetchPlain(text, t, op);
    HoldsLoads(t.mem, sp - 4, a);
    PopSim(p, text, bp, sp, st, s, st1, t);
    OwnStore(p, text, bp, sp, st1, t.(sp := sp), op, a);
    PlainStore(t.(pc := t.pc + 4), op, a);
    u := M.StepPlain(t.(pc := t.pc + 4), op).m;
    M.ReachesStep(t, u);
    M.ReachesTransitive(s, t, u);
    SimPc(p, text, bp, sp, StoreAt(op, st1.mem, a, st1.ax).st, u.(pc := t.pc), u.pc);
    FrameThen(s.mem, t.mem, u.mem, st.mem.own, p.limit, sp);
  }

  lemma FrameThen(m: Memory, m1: Memory, m2: Memory, own: set<int>, limit: int, sp: int)
    requires Frame(m, m1, own, limit, sp) && Frame(m1, m2, own, limit, sp)
    ensures Frame(m, m2, own, limit, sp)
  {
  }

  // A store into the program's own memory, done on both sides.
  lemma OwnStore(p: Program, text: Memory, bp: int, sp: int, st: State, s: M.Machine, op: Word, a: Word)
    requires Sim(p, text, bp, sp, st, s) && StoreAt(op, st.mem, a, st.ax).Done?
    ensures var mem := if op == M.SC then s.mem[a := st.ax % 256] else StoreWord(s.mem, a, st.ax);
      var st' := StoreAt(op, st.mem, a, st.ax).st;
      && Sim(p, text, bp, sp, st', s.(ax := st'.ax, mem := mem)) && Frame(s.mem, mem, st.mem.own, p.limit, sp)
      && st'.mem.own == st.mem.own && st'.ax == (if op == M.SC then SignExtend(st.ax % 256) else st.ax)
      && a in s.mem && (op != M.SC ==> HasWord(s.mem, a))
  {
    var mem := if op == M.SC then s.mem[a := st.ax % 256] else StoreWord(s.mem, a, st.ax);
    var st' := StoreAt(op, st.mem, a, st.ax).st;
    assert mem.Keys == s.mem.Keys;
    assert st'.mem.val.Keys <= st'.mem.own;
    assert Agree(mem, st'.mem.val);
    assert Agree(mem, text);
  }
}
