/**
 * The interpreter: the loop that executes instructions in place, the stack a program
 * starts with, and the value it ends with.
 */
module Interpreter {
  import opened Words
  import opened Machine

  const STACK_SIZE: int := 1024

  class Vm {
    var pc: int
    var sp: int
    var bp: int
    var ax: Word
    var mem: Memory

    ghost function State(): Machine
      reads this
    {
      Machine(pc, sp, bp, ax, mem)
    }

    // The machine of a thread whose stack area starts at `stack`.
    constructor (memory: Memory, stack: int)
      ensures State() == Machine(0, stack + STACK_SIZE - 2, stack + STACK_SIZE - 2, 0, memory)
    {
      pc, ax, mem := 0, 0, memory;
      sp := stack + STACK_SIZE - 2;
      bp := stack + STACK_SIZE - 2;
    }

    // Store a word below the stack pointer.
    method Push(v: Word)
      modifies `sp, `mem
      ensures State() == PushWord(old(State()), v)
    {
      sp := sp - 4;
      mem := StoreWord(mem, sp, v);
    }

    // The stack of a program: two instructions that end it, the arguments of its main
    // function, and the address of the first of those instructions as return address.
    method SetupStack(stack: int, argc: Word, argv: Word)
      requires 0 <= stack && stack + STACK_SIZE < WORD_LIMIT
      modifies `sp, `mem
      ensures var top := stack + STACK_SIZE - 2;
        && sp == top - 20 && mem == StartMemory(old(mem), top, argc, argv)
    {
      hide StoreWord;
      sp := stack + STACK_SIZE - 2;
      Push(EXIT);
      Push(PUSH);
      var ret := sp;
      Push(argc);
      Push(argv);
      Push(ret);
    }

    // Execute instructions until the program ends; `steps` is a number of steps after
    // which it has. None stands for an access outside the memory or a library call.
    method Eval(ghost steps: nat) returns (result: Option<Word>)
      requires !Run(steps, State()).Next?
      modifies this
      ensures Run(steps, old(State())) == match result case Some(v) => Exited(v) case None => Fault
    {
      ghost var left := steps;
      ghost var whole := Run(steps, State());
      while true
        invariant Run(left, State()) == whole && !whole.Next?
        decreases left
      {
        hide Step;
        ghost var s := State();
        var running;
        running, result := Turn();
        if !running { return; }
        left := left - 1;
      }
    }

    // One turn of the loop.
    method Turn() returns (running: bool, result: Option<Word>)
      modifies this
      ensures var r := Step(old(State()));
        && running == r.Next?
        && (r.Next? ==> State() == r.m)
        && (!r.Next? ==> r == match result case Some(v) => Exited(v) case None => Fault)
    {
      result := None;
      if !HasWord(mem, pc) { return false, None; }
      var op := LoadWord(mem, pc);
      pc := pc + 4;
      if HasOperand(op) {
        if !HasWord(mem, pc) { return false, None; }
        running := WithOperand(op);
      } else if op in {LI, LC, LEV, PUSH} {
        running := Transfer(op);
      } else if op > FREE {
        return false, Some(0xFFFF_FFFF);
      } else {
        if !HasWord(mem, sp) { return false, None; }
        if op == EXIT { return false, Some(LoadWord(mem, sp)); }
        running := WithTop(op);
      }
    }

    // Instructions with an operand, which `pc` points to.
    method WithOperand(op: Word) returns (running: bool)
      requires HasOperand(op) && HasWord(mem, pc)
      modifies this
      ensures var r := StepOperand(old(State()).(pc := old(pc) - 4), op, LoadWord(old(mem), old(pc)));
        running == r.Next? && (r.Next? ==> State() == r.m) && (!r.Next? ==> r == Fault)
    {
      hide StoreWord, LoadWord, ToWord;
      if (op == CALL || op == ENT) && !HasWord(mem, sp - 4) { return false; }
      running := true;
      if op == IMM {
        ax, pc := LoadWord(mem, pc), pc + 4;
      } else if op == LEA {
        ax, pc := ToWord(bp + 4 * Signed(LoadWord(mem, pc))), pc + 4;
      } else if op == JMP {
        pc := LoadWord(mem, pc);
      } else if op == JZ {
        pc := if ax != 0 then pc + 4 else LoadWord(mem, pc);
      } else if op == JNZ {
        pc := if ax != 0 then LoadWord(mem, pc) else pc + 4;
      } else if op == ADJ {
        sp, pc := sp + 4 * Signed(LoadWord(mem, pc)), pc + 4;
      } else if op == CALL {
        var target := LoadWord(mem, pc);
        Push(ToWord(pc + 4));
        pc := target;
      } else {
        var room := LoadWord(mem, pc);
        Push(ToWord(bp));
        bp := sp;
        sp, pc := sp - 4 * Signed(room), pc + 4;
      }
    }

    // Loads, the return and the push.
    method Transfer(op: Word) returns (running: bool)
      requires op in {LI, LC, LEV, PUSH}
      modifies this
      ensures var r := StepPlain(old(State()), op);
        running == r.Next? && (r.Next? ==> State() == r.m) && (!r.Next? ==> r == Fault)
    {
      hide StoreWord, LoadWord, Alu;
      if op == LI {
        if !HasWord(mem, ax) { return false; }
        ax := LoadWord(mem, ax);
      } else if op == LC {
        if ax !in mem { return false; }
        ax := SignExtend(mem[ax]);
      } else if op == PUSH {
        if !HasWord(mem, sp - 4) { return false; }
        Push(ax);
      } else {
        if !HasWord(mem, bp) || !HasWord(mem, bp + 4) { return false; }
        sp := bp;
        bp, sp := LoadWord(mem, sp), sp + 4;
        pc, sp := LoadWord(mem, sp), sp + 4;
      }
      running := true;
    }

    // Stores and the two-operand instructions, which take the top of the stack.
    method WithTop(op: Word) returns (running: bool)
      requires HasWord(mem, sp) && !HasOperand(op) && op !in {LI, LC, LEV, PUSH, EXIT} && op <= FREE
      modifies this
      ensures var r := StepPlain(old(State()), op);
        running == r.Next? && (r.Next? ==> State() == r.m) && (!r.Next? ==> r == Fault)
    {
      hide StoreWord, LoadWord, Alu;
      var top := LoadWord(mem, sp);
      if op == SI {
        if !HasWord(mem, top) { return false; }
        mem := StoreWord(mem, top, ax);
      } else if op == SC {
        if top !in mem { return false; }
        mem := mem[top := ax % 256];
        ax := SignExtend(ax % 256);
      } else {
        match Alu(op, top, ax)
        case None => return false;
        case Some(v) => ax := v;
      }
      sp := sp + 4;
      running := true;
    }
  }

  // The memory in which the main function is entered.
  function StartMemory(m: Memory, top: int, argc: Word, argv: Word): Memory
    requires 8 <= top < WORD_LIMIT
  {
    var m1 := StoreWord(StoreWord(m, top - 4, EXIT), top - 8, PUSH);
    StoreWord(StoreWord(StoreWord(m1, top - 12, argc), top - 16, argv), top - 20, top - 8)
  }
}
